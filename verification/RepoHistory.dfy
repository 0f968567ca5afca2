/** Where the rows of the repository come from and where they go: for every sequence of
    operations, a row is in a table because one operation put it there, and it stays until one
    operation takes it away. */
module RepoHistory {
  import opened Domain
  import opened Protocol
  import opened Repo

  /** A row of any table. */
  datatype Row =
    | UserRow(user: User)
    | IdentityRow(identity: Identity)
    | OrganizationRow(organization: Organization)
    | MembershipRow(membership: Membership)
    | DatabaseRow(database: Database)
    | StateRow(state: OAuthState)

  /** The row is in its table, under its own key. */
  predicate Has(s: State, row: Row) {
    match row
    case UserRow(u) => u.id in s.users && s.users[u.id] == u
    case IdentityRow(i) => i.id in s.identities && s.identities[i.id] == i
    case OrganizationRow(o) => o.id in s.organizations && s.organizations[o.id] == o
    case MembershipRow(m) => (m.userId, m.orgId) in s.memberships && s.memberships[(m.userId, m.orgId)] == m
    case DatabaseRow(d) => d.id in s.databases && s.databases[d.id] == d
    case StateRow(o) => o.state in s.oauthStates && s.oauthStates[o.state] == o
  }

  /** Tables hold every row under its own key. */
  ghost predicate Keyed(s: State) {
    && PeopleKeyed(s.users, s.identities)
    && OrganizationsKeyed(s.organizations, s.databases)
    && (forall key | key in s.memberships :: (s.memberships[key].userId, s.memberships[key].orgId) == key)
    && (forall name | name in s.oauthStates :: s.oauthStates[name].state == name)
  }

  ghost predicate PeopleKeyed(users: map<Id, User>, identities: map<Id, Identity>) {
    && (forall id | id in users :: users[id].id == id)
    && (forall id | id in identities :: identities[id].id == id)
  }

  ghost predicate OrganizationsKeyed(organizations: map<Id, Organization>, databases: map<Id, Database>) {
    && (forall id | id in organizations :: organizations[id].id == id)
    && (forall id | id in databases :: databases[id].id == id)
  }

  /** The operation is one that asks for this row. */
  predicate Asks(op: Op, row: Row) {
    match row
    case UserRow(u) =>
      || (op.OpPasswordUser? && u == User(op.userId, op.email, false, op.now))
      || (op.OpOAuthUser? && u == User(op.userId, op.email, true, op.now))
    case IdentityRow(i) =>
      || (op.OpPasswordUser?
          && i == Identity(op.identityId, op.userId, "password", op.userId, Some(op.passwordHash), op.now))
      || (op.OpOAuthUser? && i == Identity(op.identityId, op.userId, op.provider, op.providerUserId, None, op.now))
      || (op.OpLinkIdentity? && i == op.identity)
      || (op.OpUpdateSecret? && i.id == op.identityId && i.secret == Some(op.secret))
    case OrganizationRow(o) =>
      || ((op.OpPasswordUser? || op.OpOAuthUser?)
          && o == Organization(op.orgId, op.email + " (personal)", true, Some(op.userId), op.now))
      || (op.OpCreateOrganization? && o == Organization(op.orgId, op.displayName, false, Some(op.owner), op.now))
    case MembershipRow(m) =>
      || ((op.OpPasswordUser? || op.OpOAuthUser?) && m == Membership(op.userId, op.orgId, Admin, op.now))
      || (op.OpCreateOrganization? && m == Membership(op.owner, op.orgId, Admin, op.now))
      || (op.OpAddMembership? && m == Membership(op.userId, op.orgId, op.role, op.now))
    case DatabaseRow(d) =>
      op.OpCreateDatabase? && d == Database(op.dbId, op.orgId, op.name, op.createdBy, op.now)
    case StateRow(o) => op.OpStoreState? && o == op.o
  }

  /** The operation is one that may take this row away, or put another in its place. */
  predicate Takes(op: Op, row: Row) {
    match row
    case UserRow(_) => false
    case IdentityRow(i) => op.OpUpdateSecret? && op.identityId == i.id
    case OrganizationRow(o) => op.OpDeleteOrganization? && op.orgId == o.id && !o.personal
    case MembershipRow(m) =>
      || (op.OpRemoveMembership? && op.userId == m.userId && op.orgId == m.orgId)
      || (op.OpDeleteOrganization? && op.orgId == m.orgId)
      || (IsSignUp(op) && op.userId == m.userId && op.orgId == m.orgId)
      || (op.OpCreateOrganization? && op.owner == m.userId && op.orgId == m.orgId)
    case DatabaseRow(d) => op.OpDeleteDatabase? && op.dbId == d.id
    case StateRow(o) =>
      || (op.OpConsumeState? && op.state == o.state)
      || (op.OpStoreState? && op.o.state == o.state)
  }

  lemma {:induction false} PeopleStayKeyed(lower: Lower, s: State, op: Op)
    requires PeopleKeyed(s.users, s.identities)
    ensures PeopleKeyed(Apply(lower, s, op).users, Apply(lower, s, op).identities)
  {
    hide EmailTaken, NameTaken, HasDatabases, AdminRows, IdentityKnown, RowsWithout;
  }

  lemma {:induction false} OrganizationsStayKeyed(lower: Lower, s: State, op: Op)
    requires OrganizationsKeyed(s.organizations, s.databases)
    ensures OrganizationsKeyed(Apply(lower, s, op).organizations, Apply(lower, s, op).databases)
  {
    hide EmailTaken, NameTaken, HasDatabases, AdminRows, IdentityKnown, RowsWithout;
  }

  lemma {:induction false} ApplyKeepsKeys(lower: Lower, s: State, op: Op)
    requires Keyed(s)
    ensures Keyed(Apply(lower, s, op))
  {
    hide EmailTaken, NameTaken, HasDatabases, AdminRows, IdentityKnown, PeopleKeyed, OrganizationsKeyed;
    PeopleStayKeyed(lower, s, op);
    OrganizationsStayKeyed(lower, s, op);
  }

  lemma {:induction false} AlwaysKeyed(lower: Lower, s: State, ops: seq<Op>)
    requires Keyed(s)
    ensures Keyed(ApplyAll(lower, s, ops))
    decreases |ops|
  {
    hide Apply, Keyed;
    if ops != [] {
      ApplyKeepsKeys(lower, s, ops[0]);
      AlwaysKeyed(lower, Apply(lower, s, ops[0]), ops[1..]);
    }
  }

  /** One operation adds only rows it asks for. */
  lemma {:induction false} NothingElseAppears(lower: Lower, s: State, op: Op, row: Row)
    requires !Has(s, row) && Has(Apply(lower, s, op), row)
    ensures Asks(op, row)
  {
    hide EmailTaken, NameTaken, HasDatabases, AdminRows, IdentityKnown;
  }

  /** One operation with fresh identifiers loses only rows it takes. */
  lemma {:induction false} NothingElseGoes(lower: Lower, s: State, op: Op, row: Row)
    requires Has(s, row) && !Has(Apply(lower, s, op), row) && FreshIds(s, op)
    ensures Takes(op, row)
  {
    hide EmailTaken, NameTaken, HasDatabases, AdminRows, IdentityKnown;
  }

  /** The operation goes through. */
  ghost predicate GoesThrough(lower: Lower, s: State, op: Op) {
    match op
    case OpPasswordUser(_, _, _, email, _, _) => forall id | id in s.users :: lower(s.users[id].email) != lower(email)
    case OpOAuthUser(_, _, _, email, _, _, _) => forall id | id in s.users :: lower(s.users[id].email) != lower(email)
    case OpLinkIdentity(i) =>
      forall id | id in s.identities ::
        s.identities[id].provider != i.provider || s.identities[id].providerUserId != i.providerUserId
    case OpUpdateSecret(identityId, _) => identityId in s.identities
    case OpCreateOrganization(_, _, owner, _) => owner in s.users
    case OpDeleteOrganization(orgId) =>
      && orgId in s.organizations && !s.organizations[orgId].personal
      && forall id | id in s.databases :: s.databases[id].orgId != orgId
    case OpAddMembership(userId, orgId, _, _) => (userId, orgId) !in s.memberships
    case OpRemoveMembership(userId, orgId) =>
      && (userId, orgId) in s.memberships
      && (s.memberships[(userId, orgId)].role == Admin ==>
            exists key | key in s.memberships ::
              key.1 == orgId && key.0 != userId && s.memberships[key].role == Admin)
    case OpCreateDatabase(_, orgId, name, _, _) =>
      && orgId in s.organizations
      && forall id | id in s.databases :: s.databases[id].orgId != orgId || s.databases[id].name != name
    case OpDeleteDatabase(dbId) => dbId in s.databases
    case OpStoreState(_) => true
    case OpConsumeState(state, _) => state in s.oauthStates
  }

  lemma {:induction false} RemovalGoesThrough(lower: Lower, s: State, userId: Id, orgId: Id)
    requires Consistent(lower, s)
    ensures RemoveMembership(s, userId, orgId).1.Ok? <==> GoesThrough(lower, s, OpRemoveMembership(userId, orgId))
  {
    if (userId, orgId) in s.memberships {
      LastAdminExactly(lower, s, userId, orgId);
    }
    hide AdminRows, Consistent;
  }

  /** An operation that does not go through changes nothing. */
  lemma {:induction false} RefusedIsIdle(lower: Lower, s: State, op: Op)
    requires Consistent(lower, s) && !GoesThrough(lower, s, op)
    ensures Apply(lower, s, op) == s
  {
    if op.OpRemoveMembership? {
      RemovalGoesThrough(lower, s, op.userId, op.orgId);
    }
    hide AdminRows, Consistent;
  }

  /** One that does leaves every row it asks for, */
  lemma {:induction false} AskedIsThere(lower: Lower, s: State, op: Op, row: Row)
    requires GoesThrough(lower, s, op) && Asks(op, row) && !op.OpUpdateSecret?
    ensures Has(Apply(lower, s, op), row)
  {
  }

  lemma {:induction false} SecretIsThere(lower: Lower, s: State, identityId: Id, secret: string)
    requires Keyed(s) && identityId in s.identities
    ensures Has(Apply(lower, s, OpUpdateSecret(identityId, secret)),
                IdentityRow(s.identities[identityId].(secret := Some(secret))))
  {
  }

  /** and none that it takes, unless it asks for it again. */
  lemma {:induction false} TakenIsGone(lower: Lower, s: State, op: Op, row: Row)
    requires Consistent(lower, s) && GoesThrough(lower, s, op) && Takes(op, row) && !Asks(op, row)
    ensures !Has(Apply(lower, s, op), row)
  {
    if op.OpRemoveMembership? {
      RemovalGoesThrough(lower, s, op.userId, op.orgId);
    }
    hide AdminRows, Consistent;
  }

  // ----- Whole histories -----

  /** The tables after the first `i` operations. */
  ghost function After(lower: Lower, ops: seq<Op>, i: nat): State
    requires i <= |ops|
  {
    ApplyAll(lower, EMPTY, ops[..i])
  }

  lemma {:induction false} ApplyAllSnoc(lower: Lower, s: State, ops: seq<Op>, op: Op)
    ensures ApplyAll(lower, s, ops + [op]) == Apply(lower, ApplyAll(lower, s, ops), op)
    decreases |ops|
  {
    hide Apply;
    if ops == [] {
      assert ops + [op] == [op];
      assert ApplyAll(lower, s, [op]) == ApplyAll(lower, Apply(lower, s, op), [op][1..]);
    } else {
      assert (ops + [op])[1..] == ops[1..] + [op];
      ApplyAllSnoc(lower, Apply(lower, s, ops[0]), ops[1..], op);
    }
  }

  lemma {:induction false} AfterSnoc(lower: Lower, ops: seq<Op>, i: nat)
    requires i < |ops|
    ensures After(lower, ops, i + 1) == Apply(lower, After(lower, ops, i), ops[i])
  {
    assert ops[..i + 1] == ops[..i] + [ops[i]];
    ApplyAllSnoc(lower, EMPTY, ops[..i], ops[i]);
  }

  lemma {:induction false} FreshSnoc(lower: Lower, s: State, ops: seq<Op>, op: Op)
    ensures AllFresh(lower, s, ops + [op]) <==> AllFresh(lower, s, ops) && FreshIds(ApplyAll(lower, s, ops), op)
    decreases |ops|
  {
    hide Apply, FreshIds;
    if ops == [] {
      assert ops + [op] == [op];
      assert AllFresh(lower, Apply(lower, s, op), [op][1..]);
    } else {
      assert (ops + [op])[1..] == ops[1..] + [op];
      FreshSnoc(lower, Apply(lower, s, ops[0]), ops[1..], op);
    }
  }

  /** Operation `i` put the row there, and it has stayed since. */
  ghost predicate Origin(lower: Lower, ops: seq<Op>, row: Row, i: nat) {
    && i < |ops|
    && Asks(ops[i], row) && GoesThrough(lower, After(lower, ops, i), ops[i])
    && !Has(After(lower, ops, i), row)
    && forall j | i < j <= |ops| :: Has(After(lower, ops, j), row)
  }

  lemma {:induction false} OriginLasts(lower: Lower, ops: seq<Op>, op: Op, row: Row, i: nat)
    requires Origin(lower, ops, row, i) && Has(After(lower, ops + [op], |ops| + 1), row)
    ensures Origin(lower, ops + [op], row, i)
  {
    var all := ops + [op];
    forall j | 0 <= j <= |ops|
      ensures After(lower, all, j) == After(lower, ops, j)
    {
      assert all[..j] == ops[..j];
    }
    hide After, Asks, Has, GoesThrough;
  }

  /** A row that was not there before the last operation. */
  lemma {:induction false} OriginNow(lower: Lower, before: seq<Op>, op: Op, row: Row)
    requires Consistent(lower, After(lower, before, |before|))
    requires !Has(After(lower, before, |before|), row) && Has(After(lower, before + [op], |before| + 1), row)
    ensures Origin(lower, before + [op], row, |before|)
  {
    hide Apply, Asks, Has, GoesThrough, Consistent, ApplyAll;
    var ops := before + [op];
    assert ops[..|before|] == before && before[..|before|] == before;
    AfterSnoc(lower, ops, |before|);
    hide After;
    var s := After(lower, ops, |before|);
    NothingElseAppears(lower, s, op, row);
    if !GoesThrough(lower, s, op) {
      RefusedIsIdle(lower, s, op);
      assert false;
    }
  }

  /** Every row of every table has an origin: one operation that asked for exactly this row, went
      through, and has not been undone since. */
  lemma {:induction false} EveryRowHasAnOrigin(lower: Lower, ops: seq<Op>, row: Row) returns (i: nat)
    requires AllFresh(lower, EMPTY, ops) && Has(ApplyAll(lower, EMPTY, ops), row)
    ensures Origin(lower, ops, row, i)
  {
    if ops == [] {
      assert false;
    } else {
      hide AllFresh, ApplyAll, Has, FreshIds, Origin, Consistent;
      var n := |ops| - 1;
      var before, op := ops[..n], ops[n];
      assert before + [op] == ops && ops[..|ops|] == ops && before[..n] == before;
      FreshSnoc(lower, EMPTY, before, op);
      if Has(ApplyAll(lower, EMPTY, before), row) {
        i := EveryRowHasAnOrigin(lower, before, row);
        OriginLasts(lower, before, op, row, i);
      } else {
        i := n;
        AlwaysConsistent(lower, before);
        OriginNow(lower, before, op, row);
      }
    }
  }

  /** A row stays while no operation takes it. */
  lemma {:induction false} RowStays(lower: Lower, s: State, ops: seq<Op>, row: Row)
    requires AllFresh(lower, s, ops) && Has(s, row) && forall op | op in ops :: !Takes(op, row)
    ensures Has(ApplyAll(lower, s, ops), row)
    decreases |ops|
  {
    hide Apply, Has, Takes;
    if ops != [] {
      if !Has(Apply(lower, s, ops[0]), row) {
        NothingElseGoes(lower, s, ops[0], row);
        assert false;
      }
      RowStays(lower, Apply(lower, s, ops[0]), ops[1..], row);
    }
  }

  /** Nobody is an admin who was not made one: by signing up, by creating the organization, or by
      being added with that role. */
  lemma {:induction false} AdminsAreMade(lower: Lower, ops: seq<Op>, userId: Id, orgId: Id)
    requires AllFresh(lower, EMPTY, ops)
    requires var rows := ApplyAll(lower, EMPTY, ops).memberships;
             (userId, orgId) in rows && rows[(userId, orgId)].role == Admin
    ensures exists op | op in ops ::
              || ((op.OpPasswordUser? || op.OpOAuthUser?) && op.userId == userId && op.orgId == orgId)
              || (op.OpCreateOrganization? && op.owner == userId && op.orgId == orgId)
              || (op.OpAddMembership? && op.userId == userId && op.orgId == orgId && op.role == Admin)
  {
    var row := ApplyAll(lower, EMPTY, ops).memberships[(userId, orgId)];
    AlwaysConsistent(lower, ops);
    assert row.userId == userId && row.orgId == orgId;
    hide ApplyAll, AllFresh, Consistent;
    var i := EveryRowHasAnOrigin(lower, ops, MembershipRow(row));
    assert ops[i] in ops;
  }
}
