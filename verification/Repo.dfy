/** The in-memory repository (worker/src/repo_mem.rs): its tables, its mutators, and what
    holds after every sequence of them.  New identifiers and the lower-casing of e-mail
    addresses are parameters. */
module Repo {
  import opened Domain
  import opened Protocol

  type Id = string
  type Lower = string -> string

  datatype User = User(id: Id, email: string, emailVerified: bool, createdAt: int)
  datatype Identity = Identity(id: Id, userId: Id, provider: string, providerUserId: string,
                               secret: Option<string>, createdAt: int)
  datatype Organization = Organization(id: Id, displayName: string, personal: bool, owner: Option<Id>, createdAt: int)
  datatype Membership = Membership(userId: Id, orgId: Id, role: Role, createdAt: int)
  datatype Database = Database(id: Id, orgId: Id, name: string, createdBy: Id, createdAt: int)
  datatype OAuthState = OAuthState(state: string, provider: string, createdAt: int, expiresAt: int)

  type Memberships = map<(Id, Id), Membership>

  datatype State = State(
    users: map<Id, User>,
    identities: map<Id, Identity>,
    organizations: map<Id, Organization>,
    memberships: Memberships,
    databases: map<Id, Database>,
    oauthStates: map<string, OAuthState>)

  const EMPTY := State(map[], map[], map[], map[], map[], map[])

  datatype StoreError = NotFound | AlreadyExists | Conflict
  type StoreResult<+T> = Result<T, StoreError>

  predicate EmailTaken(lower: Lower, s: State, email: string) {
    exists id | id in s.users :: lower(s.users[id].email) == lower(email)
  }

  predicate NameTaken(s: State, orgId: Id, name: string) {
    exists id | id in s.databases :: s.databases[id].orgId == orgId && s.databases[id].name == name
  }

  predicate HasDatabases(s: State, orgId: Id) {
    exists id | id in s.databases :: s.databases[id].orgId == orgId
  }

  /** The membership rows that make somebody an admin of the organization. */
  function AdminRows(rows: Memberships, orgId: Id): set<(Id, Id)> {
    set key | key in rows && rows[key].orgId == orgId && rows[key].role == Admin
  }

  function RowsWithout(rows: Memberships, orgId: Id): Memberships {
    map key | key in rows && key.1 != orgId :: rows[key]
  }

  predicate IsIdentity(i: Identity, provider: string, providerUserId: string) {
    i.provider == provider && i.providerUserId == providerUserId
  }

  predicate IdentityKnown(s: State, provider: string, providerUserId: string) {
    exists id | id in s.identities :: IsIdentity(s.identities[id], provider, providerUserId)
  }

  // ----- The mutators as functions -----

  /** A new user, one identity, the personal organization and its admin. */
  function SignUp(s: State, user: User, identity: Identity, orgId: Id): State {
    s.(users := s.users[user.id := user],
       identities := s.identities[identity.id := identity],
       organizations := s.organizations[orgId :=
         Organization(orgId, user.email + " (personal)", true, Some(user.id), user.createdAt)],
       memberships := s.memberships[(user.id, orgId) := Membership(user.id, orgId, Admin, user.createdAt)])
  }

  function CreatePasswordUser(lower: Lower, s: State, userId: Id, identityId: Id, orgId: Id,
                              email: string, passwordHash: string, now: int): (State, StoreResult<User>) {
    if EmailTaken(lower, s, email) then (s, Err(AlreadyExists))
    else
      var user := User(userId, email, false, now);
      (SignUp(s, user, Identity(identityId, userId, "password", userId, Some(passwordHash), now), orgId), Ok(user))
  }

  function CreateOAuthUser(lower: Lower, s: State, userId: Id, identityId: Id, orgId: Id,
                           email: string, provider: string, providerUserId: string, now: int): (State, StoreResult<User>) {
    if EmailTaken(lower, s, email) then (s, Err(AlreadyExists))
    else
      var user := User(userId, email, true, now);
      (SignUp(s, user, Identity(identityId, userId, provider, providerUserId, None, now), orgId), Ok(user))
  }

  /** A known identity is left as it is, whoever owns it. */
  function LinkIdentity(s: State, identity: Identity): State {
    if IdentityKnown(s, identity.provider, identity.providerUserId) then s
    else s.(identities := s.identities[identity.id := identity])
  }

  function UpdateIdentitySecret(s: State, identityId: Id, secret: string): (State, StoreResult<()>) {
    if identityId !in s.identities then (s, Err(NotFound))
    else (s.(identities := s.identities[identityId := s.identities[identityId].(secret := Some(secret))]), Ok(()))
  }

  function CreateOrganization(s: State, orgId: Id, displayName: string, owner: Id, now: int): (State,
                              StoreResult<Organization>) {
    if owner !in s.users then (s, Err(NotFound))
    else
      var org := Organization(orgId, displayName, false, Some(owner), now);
      (s.(organizations := s.organizations[orgId := org],
          memberships := s.memberships[(owner, orgId) := Membership(owner, orgId, Admin, now)]), Ok(org))
  }

  function DeleteOrganization(s: State, orgId: Id): (State, StoreResult<()>) {
    if orgId !in s.organizations then (s, Err(NotFound))
    else if s.organizations[orgId].personal then (s, Err(Conflict))
    else if HasDatabases(s, orgId) then (s, Err(Conflict))
    else
      (s.(organizations := s.organizations - {orgId},
          memberships := RowsWithout(s.memberships, orgId)), Ok(()))
  }

  function AddMembership(s: State, userId: Id, orgId: Id, role: Role, now: int): (State, StoreResult<()>) {
    if (userId, orgId) in s.memberships then (s, Err(AlreadyExists))
    else (s.(memberships := s.memberships[(userId, orgId) := Membership(userId, orgId, role, now)]), Ok(()))
  }

  function RemoveMembership(s: State, userId: Id, orgId: Id): (State, StoreResult<()>) {
    if (userId, orgId) !in s.memberships then (s, Err(NotFound))
    else if s.memberships[(userId, orgId)].role == Admin && |AdminRows(s.memberships, orgId)| <= 1 then (s, Err(Conflict))
    else (s.(memberships := s.memberships - {(userId, orgId)}), Ok(()))
  }

  function CreateDatabase(s: State, dbId: Id, orgId: Id, name: string, createdBy: Id, now: int): (State,
                          StoreResult<Database>) {
    if orgId !in s.organizations then (s, Err(NotFound))
    else if NameTaken(s, orgId, name) then (s, Err(AlreadyExists))
    else
      var db := Database(dbId, orgId, name, createdBy, now);
      (s.(databases := s.databases[dbId := db]), Ok(db))
  }

  function DeleteDatabase(s: State, dbId: Id): (State, StoreResult<()>) {
    if dbId !in s.databases then (s, Err(NotFound))
    else (s.(databases := s.databases - {dbId}), Ok(()))
  }

  function StoreOAuthState(s: State, o: OAuthState): State {
    s.(oauthStates := s.oauthStates[o.state := o])
  }

  /** Consuming removes the row even when it has expired. */
  function ConsumeOAuthState(s: State, state: string, now: int): (State, Option<OAuthState>) {
    if state !in s.oauthStates then (s, None)
    else
      (s.(oauthStates := s.oauthStates - {state}),
       if s.oauthStates[state].expiresAt < now then None else Some(s.oauthStates[state]))
  }

  // ----- Any sequence of operations -----

  datatype Op =
    | OpPasswordUser(userId: Id, identityId: Id, orgId: Id, email: string, passwordHash: string, now: int)
    | OpOAuthUser(userId: Id, identityId: Id, orgId: Id, email: string, provider: string, providerUserId: string, now: int)
    | OpLinkIdentity(identity: Identity)
    | OpUpdateSecret(identityId: Id, secret: string)
    | OpCreateOrganization(orgId: Id, displayName: string, owner: Id, now: int)
    | OpDeleteOrganization(orgId: Id)
    | OpAddMembership(userId: Id, orgId: Id, role: Role, now: int)
    | OpRemoveMembership(userId: Id, orgId: Id)
    | OpCreateDatabase(dbId: Id, orgId: Id, name: string, createdBy: Id, now: int)
    | OpDeleteDatabase(dbId: Id)
    | OpStoreState(o: OAuthState)
    | OpConsumeState(state: string, now: int)

  /** The new identifiers of the operation are new. */
  predicate FreshIds(s: State, op: Op) {
    match op
    case OpPasswordUser(userId, identityId, orgId, _, _, _) =>
      userId !in s.users && identityId !in s.identities && orgId !in s.organizations
    case OpOAuthUser(userId, identityId, orgId, _, _, _, _) =>
      userId !in s.users && identityId !in s.identities && orgId !in s.organizations
    case OpLinkIdentity(identity) => identity.id !in s.identities
    case OpCreateOrganization(orgId, _, _, _) => orgId !in s.organizations
    case OpCreateDatabase(dbId, _, _, _, _) => dbId !in s.databases
    case _ => true
  }

  function Apply(lower: Lower, s: State, op: Op): State {
    match op
    case OpPasswordUser(userId, identityId, orgId, email, passwordHash, now) =>
      CreatePasswordUser(lower, s, userId, identityId, orgId, email, passwordHash, now).0
    case OpOAuthUser(userId, identityId, orgId, email, provider, providerUserId, now) =>
      CreateOAuthUser(lower, s, userId, identityId, orgId, email, provider, providerUserId, now).0
    case OpLinkIdentity(identity) => LinkIdentity(s, identity)
    case OpUpdateSecret(identityId, secret) => UpdateIdentitySecret(s, identityId, secret).0
    case OpCreateOrganization(orgId, displayName, owner, now) => CreateOrganization(s, orgId, displayName, owner, now).0
    case OpDeleteOrganization(orgId) => DeleteOrganization(s, orgId).0
    case OpAddMembership(userId, orgId, role, now) => AddMembership(s, userId, orgId, role, now).0
    case OpRemoveMembership(userId, orgId) => RemoveMembership(s, userId, orgId).0
    case OpCreateDatabase(dbId, orgId, name, createdBy, now) => CreateDatabase(s, dbId, orgId, name, createdBy, now).0
    case OpDeleteDatabase(dbId) => DeleteDatabase(s, dbId).0
    case OpStoreState(o) => StoreOAuthState(s, o)
    case OpConsumeState(state, now) => ConsumeOAuthState(s, state, now).0
  }

  function ApplyAll(lower: Lower, s: State, ops: seq<Op>): State
    decreases |ops|
  {
    if ops == [] then s else ApplyAll(lower, Apply(lower, s, ops[0]), ops[1..])
  }

  predicate AllFresh(lower: Lower, s: State, ops: seq<Op>)
    decreases |ops|
  {
    ops != [] ==> FreshIds(s, ops[0]) && AllFresh(lower, Apply(lower, s, ops[0]), ops[1..])
  }

  // ----- The invariant -----

  ghost predicate RowsMatchKeys(rows: Memberships) {
    forall key | key in rows :: rows[key].userId == key.0 && rows[key].orgId == key.1
  }

  ghost predicate OrgsHaveAdmins(organizations: set<Id>, rows: Memberships) {
    forall orgId | orgId in organizations :: AdminRows(rows, orgId) != {}
  }

  ghost predicate DatabasesHaveOrgs(databases: map<Id, Database>, organizations: set<Id>) {
    forall id | id in databases :: databases[id].orgId in organizations
  }

  ghost predicate NamesAreUnique(databases: map<Id, Database>) {
    forall a, b | a in databases && b in databases && databases[a].orgId == databases[b].orgId
                  && databases[a].name == databases[b].name :: a == b
  }

  ghost predicate EmailsAreUnique(lower: Lower, users: map<Id, User>) {
    forall a, b | a in users && b in users && lower(users[a].email) == lower(users[b].email) :: a == b
  }

  ghost predicate Consistent(lower: Lower, s: State) {
    && RowsMatchKeys(s.memberships)
    && OrgsHaveAdmins(s.organizations.Keys, s.memberships)
    && DatabasesHaveOrgs(s.databases, s.organizations.Keys)
    && NamesAreUnique(s.databases)
    && EmailsAreUnique(lower, s.users)
  }

  /** A new organization with an admin row leaves the other organizations' admins alone. */
  lemma {:induction false} NewAdmin(organizations: set<Id>, rows: Memberships, userId: Id, orgId: Id, now: int)
    requires RowsMatchKeys(rows) && OrgsHaveAdmins(organizations, rows) && orgId !in organizations
    ensures var rows' := rows[(userId, orgId) := Membership(userId, orgId, Admin, now)];
            RowsMatchKeys(rows') && OrgsHaveAdmins(organizations + {orgId}, rows')
  {
    var rows' := rows[(userId, orgId) := Membership(userId, orgId, Admin, now)];
    assert (userId, orgId) in AdminRows(rows', orgId);
    forall o | o in organizations
      ensures AdminRows(rows', o) != {}
    {
      var key :| key in AdminRows(rows, o);
      assert key in AdminRows(rows', o);
    }
  }

  lemma {:induction false} NewUser(lower: Lower, s: State, user: User)
    requires EmailsAreUnique(lower, s.users) && user.id !in s.users && !EmailTaken(lower, s, user.email)
    ensures EmailsAreUnique(lower, s.users[user.id := user])
  {
  }

  lemma {:induction false} MoreOrgs(databases: map<Id, Database>, organizations: set<Id>, orgId: Id)
    requires DatabasesHaveOrgs(databases, organizations)
    ensures DatabasesHaveOrgs(databases, organizations + {orgId})
  {
  }

  /** Signing up, whatever the identity. */
  lemma {:induction false} SignUpKeeps(lower: Lower, s: State, user: User, identity: Identity, orgId: Id)
    requires Consistent(lower, s) && user.id !in s.users && orgId !in s.organizations && !EmailTaken(lower, s, user.email)
    ensures Consistent(lower, SignUp(s, user, identity, orgId))
  {
    NewAdmin(s.organizations.Keys, s.memberships, user.id, orgId, user.createdAt);
    NewUser(lower, s, user);
    MoreOrgs(s.databases, s.organizations.Keys, orgId);
    assert SignUp(s, user, identity, orgId).organizations.Keys == s.organizations.Keys + {orgId};
    hide RowsMatchKeys, OrgsHaveAdmins, DatabasesHaveOrgs, NamesAreUnique, EmailsAreUnique;
  }

  lemma {:induction false} CreateOrganizationKeeps(lower: Lower, s: State, orgId: Id, displayName: string, owner: Id,
                                                   now: int)
    requires Consistent(lower, s) && orgId !in s.organizations
    ensures Consistent(lower, CreateOrganization(s, orgId, displayName, owner, now).0)
  {
    if owner in s.users {
      NewAdmin(s.organizations.Keys, s.memberships, owner, orgId, now);
      MoreOrgs(s.databases, s.organizations.Keys, orgId);
      assert CreateOrganization(s, orgId, displayName, owner, now).0.organizations.Keys == s.organizations.Keys + {orgId};
    }
    hide RowsMatchKeys, OrgsHaveAdmins, DatabasesHaveOrgs, NamesAreUnique, EmailsAreUnique;
  }

  lemma {:induction false} OtherRowsStay(rows: Memberships, orgId: Id, other: Id)
    requires RowsMatchKeys(rows) && other != orgId
    ensures AdminRows(RowsWithout(rows, orgId), other) == AdminRows(rows, other)
  {
  }

  lemma {:induction false} DeleteOrganizationKeeps(lower: Lower, s: State, orgId: Id)
    requires Consistent(lower, s)
    ensures Consistent(lower, DeleteOrganization(s, orgId).0)
  {
    forall o | o in s.organizations && o != orgId
      ensures AdminRows(RowsWithout(s.memberships, orgId), o) == AdminRows(s.memberships, o)
    {
      OtherRowsStay(s.memberships, orgId, o);
    }
    hide AdminRows;
  }

  lemma {:induction false} OneMoreRow(rows: Memberships, key: (Id, Id), row: Membership, orgId: Id)
    requires key !in rows && AdminRows(rows, orgId) != {}
    ensures AdminRows(rows[key := row], orgId) != {}
  {
    var admin :| admin in AdminRows(rows, orgId);
    assert admin in AdminRows(rows[key := row], orgId);
  }

  lemma {:induction false} AddMembershipKeeps(lower: Lower, s: State, userId: Id, orgId: Id, role: Role, now: int)
    requires Consistent(lower, s)
    ensures Consistent(lower, AddMembership(s, userId, orgId, role, now).0)
  {
    if (userId, orgId) !in s.memberships {
      forall o | o in s.organizations
        ensures AdminRows(s.memberships[(userId, orgId) := Membership(userId, orgId, role, now)], o) != {}
      {
        OneMoreRow(s.memberships, (userId, orgId), Membership(userId, orgId, role, now), o);
      }
    }
    hide AdminRows;
  }

  /** With two admins, one can go; a plain member always can. */
  lemma {:induction false} OneRowLess(rows: Memberships, key: (Id, Id), orgId: Id)
    requires RowsMatchKeys(rows) && key in rows && AdminRows(rows, orgId) != {}
    requires rows[key].role == Admin && key.1 == orgId ==> |AdminRows(rows, orgId)| > 1
    ensures AdminRows(rows - {key}, orgId) != {}
  {
    var admins := AdminRows(rows, orgId);
    assert AdminRows(rows - {key}, orgId) == admins - {key};
    if key in admins {
      assert |admins - {key}| == |admins| - 1;
    } else {
      assert admins - {key} == admins;
    }
  }

  lemma {:induction false} RemoveMembershipKeeps(lower: Lower, s: State, userId: Id, orgId: Id)
    requires Consistent(lower, s)
    ensures Consistent(lower, RemoveMembership(s, userId, orgId).0)
  {
    if RemoveMembership(s, userId, orgId).1.Ok? {
      forall o | o in s.organizations
        ensures AdminRows(s.memberships - {(userId, orgId)}, o) != {}
      {
        OneRowLess(s.memberships, (userId, orgId), o);
      }
    }
    hide AdminRows;
  }

  lemma {:induction false} CreateDatabaseKeeps(lower: Lower, s: State, dbId: Id, orgId: Id, name: string,
                                               createdBy: Id, now: int)
    requires Consistent(lower, s) && dbId !in s.databases
    ensures Consistent(lower, CreateDatabase(s, dbId, orgId, name, createdBy, now).0)
  {
    hide RowsMatchKeys, OrgsHaveAdmins, EmailsAreUnique;
  }

  lemma {:induction false} ApplyKeeps(lower: Lower, s: State, op: Op)
    requires Consistent(lower, s) && FreshIds(s, op)
    ensures Consistent(lower, Apply(lower, s, op))
  {
    match op
    case OpPasswordUser(userId, identityId, orgId, email, passwordHash, now) =>
      if !EmailTaken(lower, s, email) {
        SignUpKeeps(lower, s, User(userId, email, false, now),
                    Identity(identityId, userId, "password", userId, Some(passwordHash), now), orgId);
      }
      hide Consistent;
    case OpOAuthUser(userId, identityId, orgId, email, provider, providerUserId, now) =>
      if !EmailTaken(lower, s, email) {
        SignUpKeeps(lower, s, User(userId, email, true, now),
                    Identity(identityId, userId, provider, providerUserId, None, now), orgId);
      }
      hide Consistent;
    case OpCreateOrganization(orgId, displayName, owner, now) =>
      CreateOrganizationKeeps(lower, s, orgId, displayName, owner, now);
      hide Consistent;
    case OpDeleteOrganization(orgId) =>
      DeleteOrganizationKeeps(lower, s, orgId);
      hide Consistent;
    case OpAddMembership(userId, orgId, role, now) =>
      AddMembershipKeeps(lower, s, userId, orgId, role, now);
      hide Consistent;
    case OpRemoveMembership(userId, orgId) =>
      RemoveMembershipKeeps(lower, s, userId, orgId);
      hide Consistent;
    case OpCreateDatabase(dbId, orgId, name, createdBy, now) =>
      CreateDatabaseKeeps(lower, s, dbId, orgId, name, createdBy, now);
      hide Consistent;
    case _ =>
  }

  /** After every sequence of operations with fresh identifiers, every organization has an
      admin, every database belongs to an organization, database names are unique in theirs
      and e-mail addresses are unique up to case. */
  lemma {:induction false} AlwaysConsistent(lower: Lower, ops: seq<Op>)
    requires AllFresh(lower, EMPTY, ops)
    ensures Consistent(lower, ApplyAll(lower, EMPTY, ops))
  {
    StaysConsistent(lower, EMPTY, ops);
  }

  lemma {:induction false} StaysConsistent(lower: Lower, s: State, ops: seq<Op>)
    requires Consistent(lower, s) && AllFresh(lower, s, ops)
    ensures Consistent(lower, ApplyAll(lower, s, ops))
    decreases |ops|
  {
    hide Consistent, Apply;
    if ops != [] {
      ApplyKeeps(lower, s, ops[0]);
      StaysConsistent(lower, Apply(lower, s, ops[0]), ops[1..]);
    }
  }

  // ----- What lasts -----

  /** Users and personal organizations are there to stay. */
  ghost predicate Lasts(s: State, s': State) {
    && (forall id | id in s.users :: id in s'.users && s'.users[id] == s.users[id])
    && (forall id | id in s.organizations && s.organizations[id].personal ::
          id in s'.organizations && s'.organizations[id] == s.organizations[id])
  }

  lemma {:induction false} ApplyLasts(lower: Lower, s: State, op: Op)
    requires FreshIds(s, op)
    ensures Lasts(s, Apply(lower, s, op))
  {
    hide EmailTaken, NameTaken, HasDatabases, AdminRows, IdentityKnown, RowsWithout;
  }

  lemma {:induction false} AllLasts(lower: Lower, s: State, ops: seq<Op>)
    requires AllFresh(lower, s, ops)
    ensures Lasts(s, ApplyAll(lower, s, ops))
    decreases |ops|
  {
    if ops == [] {
    } else {
      ApplyLasts(lower, s, ops[0]);
      AllLasts(lower, Apply(lower, s, ops[0]), ops[1..]);
      hide Apply;
    }
  }

  predicate IsSignUp(op: Op) {
    op.OpPasswordUser? || op.OpOAuthUser?
  }

  lemma {:induction false} SignUpTakes(lower: Lower, s: State, op: Op)
    requires IsSignUp(op) && !EmailTaken(lower, s, op.email)
    ensures var s' := Apply(lower, s, op);
            && op.userId in s'.users && s'.users[op.userId].email == op.email
            && op.orgId in s'.organizations && s'.organizations[op.orgId].personal
  {
    hide EmailTaken;
  }

  /** Signing up with an address that was ever used, in any spelling and in either way, is
      refused and changes nothing; and the first user's personal organization still has an
      admin by then. */
  lemma {:induction false} SignUpOnce(lower: Lower, s: State, op: Op, ops: seq<Op>, again: Op)
    requires Consistent(lower, s) && IsSignUp(op) && IsSignUp(again)
    requires forall id | id in s.users :: lower(s.users[id].email) != lower(op.email)
    requires lower(again.email) == lower(op.email)
    requires AllFresh(lower, s, [op] + ops)
    ensures var s' := ApplyAll(lower, s, [op] + ops);
            && Apply(lower, s', again) == s'
            && op.orgId in s'.organizations && s'.organizations[op.orgId].personal
            && AdminRows(s'.memberships, op.orgId) != {}
  {
    var all := [op] + ops;
    assert all[1..] == ops;
    var signedUp := Apply(lower, s, op);
    SignUpTakes(lower, s, op);
    AllLasts(lower, signedUp, ops);
    StaysConsistent(lower, s, all);
    var s' := ApplyAll(lower, s, all);
    assert s' == ApplyAll(lower, signedUp, ops);
    hide AdminRows, ApplyAll, AllFresh;
    assert s'.users[op.userId].email == op.email;
  }

  predicate Stores(op: Op, state: string) {
    op.OpStoreState? && op.o.state == state
  }

  lemma {:induction false} ApplyLeavesConsumed(lower: Lower, s: State, op: Op, state: string)
    requires state !in s.oauthStates && !Stores(op, state)
    ensures state !in Apply(lower, s, op).oauthStates
  {
    hide EmailTaken, NameTaken, HasDatabases, AdminRows, IdentityKnown;
  }

  lemma {:induction false} StaysConsumed(lower: Lower, s: State, ops: seq<Op>, state: string)
    requires state !in s.oauthStates && forall op | op in ops :: !Stores(op, state)
    ensures state !in ApplyAll(lower, s, ops).oauthStates
    decreases |ops|
  {
    if ops != [] {
      assert !Stores(ops[0], state);
      ApplyLeavesConsumed(lower, s, ops[0], state);
      hide Apply;
      StaysConsumed(lower, Apply(lower, s, ops[0]), ops[1..], state);
    }
  }

  /** An OAuth state is good for one use: once consumed, expired or not, it yields nothing
      until it is stored again, whatever else happens. */
  lemma {:induction false} SingleUse(lower: Lower, s: State, state: string, now: int, ops: seq<Op>, later: int)
    requires forall op | op in ops :: !Stores(op, state)
    ensures ConsumeOAuthState(ApplyAll(lower, ConsumeOAuthState(s, state, now).0, ops), state, later).1 == None
  {
    StaysConsumed(lower, ConsumeOAuthState(s, state, now).0, ops, state);
  }

  /** A membership is refused removal exactly when it is the only admin's. */
  lemma {:induction false} LastAdminExactly(lower: Lower, s: State, userId: Id, orgId: Id)
    requires Consistent(lower, s) && (userId, orgId) in s.memberships
    ensures RemoveMembership(s, userId, orgId).1 == Err(Conflict) <==>
              && s.memberships[(userId, orgId)].role == Admin
              && forall key | key in s.memberships && key.1 == orgId && s.memberships[key].role == Admin :: key.0 == userId
  {
    var key := (userId, orgId);
    var admins := AdminRows(s.memberships, orgId);
    assert forall other :: other in admins <==>
        other in s.memberships && other.1 == orgId && s.memberships[other].role == Admin;
    hide AdminRows;
    if s.memberships[key].role == Admin {
      assert key in admins && |admins - {key}| == |admins| - 1;
      if other :| other in admins && other != key {
        assert other in admins - {key};
      } else {
        assert admins == {key};
      }
    }
  }

  /** Whatever has been done, every organization has somebody who is its admin. */
  lemma {:induction false} SomebodyIsAdmin(lower: Lower, ops: seq<Op>, orgId: Id) returns (userId: Id)
    requires AllFresh(lower, EMPTY, ops) && orgId in ApplyAll(lower, EMPTY, ops).organizations
    ensures var rows := ApplyAll(lower, EMPTY, ops).memberships;
            (userId, orgId) in rows && rows[(userId, orgId)].role == Admin
  {
    AlwaysConsistent(lower, ops);
    var s := ApplyAll(lower, EMPTY, ops);
    assert AdminRows(s.memberships, orgId) != {};
    hide ApplyAll, AllFresh;
    var key :| key in AdminRows(s.memberships, orgId);
    userId := key.0;
  }
}
