/** Who may do what with which collection: policies of all projects in one table
    (crates/ketebe-server/src/authorization.rs). */
module Authorization {
  import opened Wrappers
  import opened Text

  const SEPARATOR: char := '\U{1F}'

  datatype Action =
    | CollectionDiscover
    | CollectionRead
    | CollectionCreate
    | CollectionWrite
    | CollectionDelete
    | ProjectAdmin

  datatype Permission = ReadPermission | WritePermission | AdminPermission

  datatype CollectionPolicy = CollectionPolicy(project: string, permissions: map<string, Permission>)

  // By policy key: scoped entries, and older entries under the bare id of their collection.
  type Policies = map<string, CollectionPolicy>

  datatype AuthorizationError = Undiscoverable | MissingProject | OwnershipConflict | Io

  datatype ClaimOutcome = Inserted | Existing

  datatype Principal = Principal(subject: string, project: Option<string>)

  function Key(project: string, collection: string): string {
    project + [SEPARATOR] + collection
  }

  predicate ValidProject(project: string) {
    SEPARATOR !in project
  }

  predicate PermissionAllows(permission: Permission, action: Action) {
    match permission
    case AdminPermission => action != ProjectAdmin
    case WritePermission => action in {CollectionDiscover, CollectionRead, CollectionWrite}
    case ReadPermission => action in {CollectionDiscover, CollectionRead}
  }

  // The policy of a collection and the key that it is stored under.
  function Find(s: Policies, project: string, collection: string): Option<string> {
    var key := Key(project, collection);
    if key in s then Some(key)
    else if collection in s && s[collection].project == project then Some(collection)
    else None
  }

  // The part of a decision that the policies make: with no entry for the subject all is allowed.
  function Decide(s: Policies, project: string, collection: string, subject: string, action: Action)
    : Result<(string, string), AuthorizationError>
  {
    match Find(s, project, collection)
    case None => Err(Undiscoverable)
    case Some(key) =>
      if subject in s[key].permissions && !PermissionAllows(s[key].permissions[subject], action)
      then Err(Undiscoverable)
      else Ok((s[key].project, collection))
  }

  // ---------------------------------------------------------------- what changes the policies

  datatype Operation =
    | Claim(project: string, collection: string)
    | Release(project: string, collection: string)
    | SetPermission(project: string, collection: string, subject: string, permission: Permission)
    | Remove(project: string, collection: string, subject: string)

  function Apply(s: Policies, op: Operation): Policies {
    var key := Key(op.project, op.collection);
    match op
    case Claim(project, _) => if key in s then s else s[key := CollectionPolicy(project, map[])]
    case Release(_, _) => s - {key}
    case SetPermission(project, collection, subject, permission) =>
      (match Find(s, project, collection)
       case None => s
       case Some(k) => s[k := s[k].(permissions := s[k].permissions[subject := permission])])
    case Remove(project, collection, subject) =>
      if Decide(s, project, collection, subject, CollectionDelete).Err? then s
      else
        var rest := s - {key};
        if collection in rest && rest[collection].project == project then rest - {collection} else rest
  }

  // ---------------------------------------------------------------- what decisions and operations mean

  // The entry of a collection that a project finds: its scoped one, or else an older one of its own.
  ghost predicate IsEntry(s: Policies, project: string, collection: string, key: string) {
    && key in s
    && (key == project + [SEPARATOR] + collection
        || (project + [SEPARATOR] + collection !in s && key == collection && s[key].project == project))
  }

  // The actions that a permission grants.
  ghost function Granted(permission: Permission): set<Action> {
    match permission
    case ReadPermission => {CollectionDiscover, CollectionRead}
    case WritePermission => {CollectionDiscover, CollectionRead, CollectionWrite}
    case AdminPermission =>
      {CollectionDiscover, CollectionRead, CollectionCreate, CollectionWrite, CollectionDelete}
  }

  // A subject may do what it has been granted on the entry, and anything if the entry does not name it.
  ghost predicate MayDo(policy: CollectionPolicy, subject: string, action: Action) {
    subject in policy.permissions ==> action in Granted(policy.permissions[subject])
  }

  lemma DecideMeans(s: Policies, project: string, collection: string, subject: string, action: Action)
    ensures forall key :: IsEntry(s, project, collection, key) ==>
              Decide(s, project, collection, subject, action)
              == if MayDo(s[key], subject, action) then Ok((s[key].project, collection)) else Err(Undiscoverable)
    ensures (forall key :: !IsEntry(s, project, collection, key)) ==>
              Decide(s, project, collection, subject, action) == Err(Undiscoverable)
  {
    var found := Find(s, project, collection);
    assert found.Some? ==> IsEntry(s, project, collection, found.value);
    GrantedAre(action);
  }

  lemma GrantedAre(action: Action)
    ensures forall permission :: PermissionAllows(permission, action) <==> action in Granted(permission)
  {
  }

  // Granting a permission decides what its subject may do from then on, and nothing for others.
  lemma GrantingMeans(s: Policies, project: string, collection: string, key: string, subject: string,
                      permission: Permission, other: string, action: Action)
    requires IsEntry(s, project, collection, key)
    ensures var t := Apply(s, SetPermission(project, collection, subject, permission));
            && (Decide(t, project, collection, subject, action).Ok? <==> action in Granted(permission))
            && (other != subject ==>
                  Decide(t, project, collection, other, action) == Decide(s, project, collection, other, action))
  {
    var t := Apply(s, SetPermission(project, collection, subject, permission));
    assert IsEntry(t, project, collection, key);
    DecideMeans(t, project, collection, subject, action);
    DecideMeans(t, project, collection, other, action);
    DecideMeans(s, project, collection, other, action);
  }

  // What an operation changes: at most the scoped entry of its collection, and for permissions and
  // removals an older entry of its project if that is the one found.
  lemma OperationsMean(s: Policies, op: Operation, key: string)
    ensures var scoped := op.project + [SEPARATOR] + op.collection;
            var t := Apply(s, op);
            match op
            case Claim(project, _) =>
              if key == scoped
              then key in t && t[key] == (if key in s then s[key] else CollectionPolicy(project, map[]))
              else Keeps(s, t, key)
            case Release(_, _) => if key == scoped then key !in t else Keeps(s, t, key)
            case SetPermission(project, collection, subject, permission) =>
              if IsEntry(s, project, collection, key)
              then key in t && t[key].project == s[key].project
                   && t[key].permissions == s[key].permissions[subject := permission]
              else Keeps(s, t, key)
            case Remove(project, collection, subject) =>
              if (exists k :: IsEntry(s, project, collection, k) && MayDo(s[k], subject, CollectionDelete))
                 && (key == scoped || (key == collection && key in s && s[key].project == project))
              then key !in t
              else Keeps(s, t, key)
  {
    if op.Remove? {
      DecideMeans(s, op.project, op.collection, op.subject, CollectionDelete);
    }
  }

  ghost predicate Keeps(s: Policies, t: Policies, key: string) {
    (key in s <==> key in t) && (key in s ==> t[key] == s[key])
  }

  // Scoped entries belong to the project in their key.
  ghost predicate Scoped(s: Policies) {
    forall project, collection :: ValidProject(project) && Key(project, collection) in s ==>
      s[Key(project, collection)].project == project
  }

  lemma KeysDiffer(p: string, c: string, q: string, d: string)
    requires ValidProject(p) && ValidProject(q) && Key(p, c) == Key(q, d)
    ensures p == q && c == d
  {
    SplitAtDelimiter(p, c, q, d, SEPARATOR);
  }

  lemma StaysScoped(s: Policies, op: Operation)
    requires Scoped(s) && ValidProject(op.project)
    ensures Scoped(Apply(s, op))
  {
    var t := Apply(s, op);
    forall project, collection | ValidProject(project) && Key(project, collection) in t
      ensures t[Key(project, collection)].project == project
    {
      var k := Key(project, collection);
      if k !in s {
        KeysDiffer(project, collection, op.project, op.collection);
      }
    }
  }

  // ---------------------------------------------------------------- projects do not interfere

  // What of the policies concerns a project.
  function View(s: Policies, project: string): Policies {
    map k | k in s && s[k].project == project :: s[k]
  }

  // Decisions about a project depend on its view alone.
  lemma DecideByView(s: Policies, project: string, collection: string, subject: string, action: Action)
    requires Scoped(s) && ValidProject(project)
    ensures Find(View(s, project), project, collection) == Find(s, project, collection)
    ensures Decide(View(s, project), project, collection, subject, action)
            == Decide(s, project, collection, subject, action)
  {
  }

  lemma OthersKeepView(s: Policies, op: Operation, project: string)
    requires Scoped(s) && ValidProject(op.project) && op.project != project
    ensures View(Apply(s, op), project) == View(s, project)
  {
  }

  lemma OwnActsOnView(s: Policies, op: Operation)
    requires Scoped(s) && ValidProject(op.project)
    ensures View(Apply(s, op), op.project) == Apply(View(s, op.project), op)
  {
    DecideByView(s, op.project, op.collection, if op.Remove? then op.subject else "", CollectionDelete);
  }

  function Run(s: Policies, ops: seq<Operation>): Policies {
    if ops == [] then s else Apply(Run(s, ops[..|ops| - 1]), ops[|ops| - 1])
  }

  function OperationsOf(ops: seq<Operation>, project: string): seq<Operation> {
    if ops == [] then []
    else
      var init, last := OperationsOf(ops[..|ops| - 1], project), ops[|ops| - 1];
      if last.project == project then init + [last] else init
  }

  lemma {:induction false} RunStaysScoped(s: Policies, ops: seq<Operation>)
    requires Scoped(s) && forall i :: 0 <= i < |ops| ==> ValidProject(ops[i].project)
    ensures Scoped(Run(s, ops))
  {
    if ops != [] {
      RunStaysScoped(s, ops[..|ops| - 1]);
      StaysScoped(Run(s, ops[..|ops| - 1]), ops[|ops| - 1]);
    }
  }

  // Whatever happens in other projects, a project sees what it would see if it were alone.
  lemma {:induction false} ViewIsOwnRun(s: Policies, ops: seq<Operation>, project: string)
    requires Scoped(s) && forall i :: 0 <= i < |ops| ==> ValidProject(ops[i].project)
    ensures View(Run(s, ops), project) == Run(View(s, project), OperationsOf(ops, project))
  {
    if ops != [] {
      var init, last := ops[..|ops| - 1], ops[|ops| - 1];
      RunStaysScoped(s, init);
      ViewIsOwnRun(s, init, project);
      if last.project == project {
        OwnActsOnView(Run(s, init), last);
        var own := OperationsOf(ops, project);
        assert own[..|own| - 1] == OperationsOf(init, project);
      } else {
        OthersKeepView(Run(s, init), last, project);
      }
    }
  }

  // No decision about a project is changed by operations of other projects.
  lemma ProjectsDoNotInterfere(s: Policies, ops: seq<Operation>, project: string, collection: string,
                               subject: string, action: Action)
    requires Scoped(s) && forall i :: 0 <= i < |ops| ==> ValidProject(ops[i].project)
    requires ValidProject(project)
    ensures Decide(Run(s, ops), project, collection, subject, action)
            == Decide(Run(View(s, project), OperationsOf(ops, project)), project, collection, subject, action)
  {
    RunStaysScoped(s, ops);
    ViewIsOwnRun(s, ops, project);
    DecideByView(Run(s, ops), project, collection, subject, action);
  }

  // Within a project, operations on one collection leave decisions about another one alone.
  lemma CollectionsDoNotInterfere(s: Policies, op: Operation, collection: string, subject: string, action: Action)
    requires Scoped(s) && ValidProject(op.project) && op.collection != collection
    requires SEPARATOR !in op.collection && SEPARATOR !in collection
    ensures Decide(Apply(s, op), op.project, collection, subject, action)
            == Decide(s, op.project, collection, subject, action)
  {
    if Key(op.project, collection) == Key(op.project, op.collection) {
      KeysDiffer(op.project, collection, op.project, op.collection);
    }
    assert Key(op.project, op.collection)[|op.project|] == SEPARATOR;
    assert Key(op.project, collection)[|op.project|] == SEPARATOR;
  }

  lemma ReleaseUndoesClaim(s: Policies, project: string, collection: string)
    requires Key(project, collection) !in s
    ensures Apply(Apply(s, Claim(project, collection)), Release(project, collection)) == s
  {
  }

  // ---------------------------------------------------------------- the service

  class AuthorizationService {
    // Without it every request is allowed and no policy is kept.
    const required: bool
    // What the control plane and the memberships say of a principal in a project.
    const projectAllows: (Principal, Action, string) -> bool
    // Whether the n-th write of the policy file succeeds, and how many there have been.
    const writes: nat -> bool
    var attempts: nat

    var collections: Policies
    // The contents of the policy file.
    var saved: Policies

    ghost predicate Valid()
      reads this
    {
      && Scoped(collections)
      && forall principal, action, project :: projectAllows(principal, action, project) ==> ValidProject(project)
    }

    constructor (required: bool, projectAllows: (Principal, Action, string) -> bool, writes: nat -> bool,
                 saved: Policies)
      requires Scoped(saved)
      requires forall principal, action, project :: projectAllows(principal, action, project) ==> ValidProject(project)
      ensures Valid() && collections == saved && this.saved == saved
    {
      this.required, this.projectAllows, this.writes, this.attempts := required, projectAllows, writes, 0;
      this.collections, this.saved := saved, saved;
    }

    method Persist() returns (ok: bool)
      modifies this`saved, this`attempts
      ensures ok == writes(old(attempts)) && attempts == old(attempts) + 1
      ensures saved == if ok then collections else old(saved)
    {
      ok := writes(attempts);
      attempts := attempts + 1;
      if ok { saved := collections; }
    }

    method AuthorizeCollectionInProject(principal: Principal, action: Action, project: string, collection: string)
      returns (r: Result<(string, string), AuthorizationError>)
      ensures r == if !required then Ok((project, collection))
                   else if !projectAllows(principal, action, project) then Err(Undiscoverable)
                   else Decide(collections, project, collection, principal.subject, action)
      // Written out: the project allows the action, there is an entry, and it does not forbid it.
      ensures required ==>
                (r.Ok? <==> && projectAllows(principal, action, project)
                            && exists key :: IsEntry(collections, project, collection, key)
                                             && MayDo(collections[key], principal.subject, action))
      ensures r.Err? ==> r == Err(Undiscoverable)
    {
      DecideMeans(collections, project, collection, principal.subject, action);
      if !required { return Ok((project, collection)); }
      if !projectAllows(principal, action, project) { return Err(Undiscoverable); }
      var key := Key(project, collection);
      if key !in collections {
        if collection !in collections || collections[collection].project != project { return Err(Undiscoverable); }
        key := collection;
      }
      var policy := collections[key];
      if principal.subject in policy.permissions
         && !PermissionAllows(policy.permissions[principal.subject], action) {
        return Err(Undiscoverable);
      }
      r := Ok((policy.project, collection));
    }

    method SetCollectionPermission(project: string, collection: string, subject: string, permission: Permission)
      returns (r: Result<(), AuthorizationError>)
      requires Valid() && ValidProject(project)
      modifies this`collections, this`saved, this`attempts
      ensures Valid()
      ensures collections ==
                if required then Apply(old(collections), SetPermission(project, collection, subject, permission))
                else old(collections)
      ensures required ==> (r == Err(Undiscoverable) <==> Find(old(collections), project, collection).None?)
      ensures r.Ok? && required ==> saved == collections
      ensures required && Find(old(collections), project, collection).Some? ==>
                r == if writes(old(attempts)) then Ok(()) else Err(Io)
    {
      if !required { return Ok(()); }
      StaysScoped(collections, SetPermission(project, collection, subject, permission));
      var found := Find(collections, project, collection);
      if found.None? { return Err(Undiscoverable); }
      var policy := collections[found.value];
      collections := collections[found.value := policy.(permissions := policy.permissions[subject := permission])];
      var ok := Persist();
      r := if ok then Ok(()) else Err(Io);
    }

    // Whether a principal may create collections in its project.
    predicate MayCreate(principal: Principal)
    {
      principal.project.Some? && projectAllows(principal, CollectionCreate, principal.project.value)
    }

    method ClaimCollection(principal: Principal, collection: string)
      returns (r: Result<ClaimOutcome, AuthorizationError>)
      requires Valid()
      modifies this`collections, this`saved, this`attempts
      ensures Valid()
      ensures !required ==> r == Ok(Existing) && collections == old(collections) && saved == old(saved)
      ensures required && !MayCreate(principal) ==>
                && r == Err(if principal.project.None? then MissingProject else Undiscoverable)
                && collections == old(collections) && saved == old(saved)
      ensures required && MayCreate(principal) ==>
                && collections == Apply(old(collections), Claim(principal.project.value, collection))
                && (r == Ok(Existing) <==> Key(principal.project.value, collection) in old(collections))
                && (r != Ok(Existing) ==> r == if writes(old(attempts)) then Ok(Inserted) else Err(Io))
                && (r == Ok(Inserted) ==> saved == collections) && (r != Ok(Inserted) ==> saved == old(saved))
      ensures required ==>
                (r in {Err(MissingProject), Err(Undiscoverable)} <==>
                 principal.project == None || !projectAllows(principal, CollectionCreate, principal.project.value))
      ensures attempts == old(attempts) + if required && MayCreate(principal) && r != Ok(Existing) then 1 else 0
    {
      if !required { return Ok(Existing); }
      if principal.project.None? { return Err(MissingProject); }
      var project := principal.project.value;
      if !projectAllows(principal, CollectionCreate, project) { return Err(Undiscoverable); }
      StaysScoped(collections, Claim(project, collection));
      var key := Key(project, collection);
      if key in collections {
        return if collections[key].project == project then Ok(Existing) else Err(OwnershipConflict);
      }
      collections := collections[key := CollectionPolicy(project, map[])];
      var ok := Persist();
      r := if ok then Ok(Inserted) else Err(Io);
    }

    method ReleaseCollectionClaimForPrincipal(principal: Principal, collection: string, outcome: ClaimOutcome)
      returns (r: Result<(), AuthorizationError>)
      requires Valid() && (principal.project.Some? ==> ValidProject(principal.project.value))
      modifies this`collections, this`saved, this`attempts
      ensures Valid()
      ensures required && outcome == Inserted && principal.project.Some? ==>
                && collections == Apply(old(collections), Release(principal.project.value, collection))
                && (saved == if writes(old(attempts)) then collections else old(saved))
      ensures !(required && outcome == Inserted && principal.project.Some?) ==>
                collections == old(collections) && saved == old(saved)
      ensures r == if !required || outcome != Inserted then Ok(())
                   else if principal.project.None? then Err(MissingProject)
                   else if writes(old(attempts)) then Ok(())
                   else Err(Io)
    {
      if !required || outcome != Inserted { return Ok(()); }
      if principal.project.None? { return Err(MissingProject); }
      StaysScoped(collections, Release(principal.project.value, collection));
      collections := collections - {Key(principal.project.value, collection)};
      var ok := Persist();
      r := if ok then Ok(()) else Err(Io);
    }

    method RemoveCollection(principal: Principal, collection: string) returns (r: Result<(), AuthorizationError>)
      requires Valid()
      modifies this`collections, this`saved, this`attempts
      ensures Valid()
      ensures required && principal.project.Some?
              && projectAllows(principal, CollectionDelete, principal.project.value) ==>
                collections == Apply(old(collections), Remove(principal.project.value, collection, principal.subject))
      ensures !required || principal.project.None?
              || !projectAllows(principal, CollectionDelete, principal.project.value) ==>
                collections == old(collections)
      ensures r.Ok? && required ==>
                && principal.project.Some? && Find(old(collections), principal.project.value, collection).Some?
                && Find(collections, principal.project.value, collection).None?
      ensures saved == if r.Ok? && required then collections else old(saved)
      ensures required && principal.project.None? ==> r == Err(MissingProject)
      ensures required && principal.project.Some? ==>
                if (exists key :: IsEntry(old(collections), principal.project.value, collection, key)
                                  && MayDo(old(collections)[key], principal.subject, CollectionDelete))
                   && projectAllows(principal, CollectionDelete, principal.project.value)
                then r == if writes(old(attempts)) then Ok(()) else Err(Io)
                else r == Err(Undiscoverable) && collections == old(collections)
    {
      if !required { return Ok(()); }
      if principal.project.None? { return Err(MissingProject); }
      var project := principal.project.value;
      var allowed := AuthorizeCollectionInProject(principal, CollectionDelete, project, collection);
      if allowed.Err? { return Err(allowed.error); }
      StaysScoped(collections, Remove(project, collection, principal.subject));
      collections := collections - {Key(project, collection)};
      if collection in collections && collections[collection].project == project {
        collections := collections - {collection};
      }
      var ok := Persist();
      r := if ok then Ok(()) else Err(Io);
    }
  }
}
