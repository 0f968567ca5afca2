/** `InMemoryRepo` (worker/src/repo_mem.rs) as the mutable object it is: each method holds the
    lock for its whole body, so it is one step of Repo.dfy. */
module RepoMem {
  import opened Domain
  import opened Protocol
  import opened Repo

  lemma {:induction false} CountStarts(rows: Memberships, orgId: Id)
    ensures |AdminRows(rows, orgId) - rows.Keys| == 0
  {
    assert AdminRows(rows, orgId) - rows.Keys == {};
  }

  /** One row more has been looked at. */
  lemma {:induction false} CountOne(rows: Memberships, orgId: Id, todo: set<(Id, Id)>, key: (Id, Id))
    requires key in todo && key in rows
    ensures |AdminRows(rows, orgId) - (todo - {key})|
            == |AdminRows(rows, orgId) - todo| + if rows[key].orgId == orgId && rows[key].role == Admin then 1 else 0
  {
    var seen := AdminRows(rows, orgId) - todo;
    if key in AdminRows(rows, orgId) {
      assert AdminRows(rows, orgId) - (todo - {key}) == seen + {key};
    } else {
      assert AdminRows(rows, orgId) - (todo - {key}) == seen;
    }
  }

  class InMemoryRepo {
    const lower: Lower
    var users: map<Id, User>
    var identities: map<Id, Identity>
    var organizations: map<Id, Organization>
    var memberships: Memberships
    var databases: map<Id, Database>
    var oauthStates: map<string, OAuthState>

    ghost function Tables(): State
      reads this
    {
      State(users, identities, organizations, memberships, databases, oauthStates)
    }

    constructor (lower: Lower)
      ensures this.lower == lower && Tables() == EMPTY
    {
      this.lower := lower;
      users, identities, organizations := map[], map[], map[];
      memberships, databases, oauthStates := map[], map[], map[];
    }

    /** Finds the user with this address, in any spelling.  As long as addresses are unique
        there is only one to find. */
    method GetUserByEmail(email: string) returns (r: Option<User>)
      ensures r.Some? <==> EmailTaken(lower, Tables(), email)
      ensures r.None? ==> forall id | id in users :: lower(users[id].email) != lower(email)
      ensures r.Some? ==> exists id | id in users :: users[id] == r.value && lower(r.value.email) == lower(email)
      ensures r.Some? && EmailsAreUnique(lower, users) ==>
                forall id | id in users && lower(users[id].email) == lower(email) :: users[id] == r.value
    {
      var needle := lower(email);
      var todo := users.Keys;
      while todo != {}
        invariant todo <= users.Keys
        invariant forall id | id in users && id !in todo :: lower(users[id].email) != needle
        decreases |todo|
      {
        var id :| id in todo;
        if lower(users[id].email) == needle {
          return Some(users[id]);
        }
        todo := todo - {id};
      }
      return None;
    }

    method InsertPersonalOrg(userId: Id, email: string, orgId: Id, now: int)
      modifies this`organizations, this`memberships
      ensures organizations == old(organizations)[orgId := Organization(orgId, email + " (personal)", true, Some(userId), now)]
      ensures memberships == old(memberships)[(userId, orgId) := Membership(userId, orgId, Admin, now)]
    {
      organizations := organizations[orgId := Organization(orgId, email + " (personal)", true, Some(userId), now)];
      memberships := memberships[(userId, orgId) := Membership(userId, orgId, Admin, now)];
    }

    method CreatePasswordUser(userId: Id, identityId: Id, orgId: Id, email: string, passwordHash: string, now: int)
      returns (r: StoreResult<User>)
      modifies this`users, this`identities, this`organizations, this`memberships
      ensures (Tables(), r)
              == Repo.CreatePasswordUser(lower, old(Tables()), userId, identityId, orgId, email, passwordHash, now)
      ensures r.Ok? <==> forall id | id in old(users) :: lower(old(users)[id].email) != lower(email)
      ensures r.Ok? ==>
                && r.value == User(userId, email, false, now) && users == old(users)[userId := r.value]
                && identities == old(identities)[identityId :=
                     Identity(identityId, userId, "password", userId, Some(passwordHash), now)]
                && organizations == old(organizations)[orgId :=
                     Organization(orgId, email + " (personal)", true, Some(userId), now)]
                && memberships == old(memberships)[(userId, orgId) := Membership(userId, orgId, Admin, now)]
      ensures r.Err? ==> r.error == AlreadyExists && Tables() == old(Tables())
    {
      var existing := GetUserByEmail(email);
      if existing.Some? {
        return Err(AlreadyExists);
      }
      var user := User(userId, email, false, now);
      users := users[userId := user];
      identities := identities[identityId := Identity(identityId, userId, "password", userId, Some(passwordHash), now)];
      InsertPersonalOrg(userId, email, orgId, now);
      return Ok(user);
    }

    method CreateOAuthUser(userId: Id, identityId: Id, orgId: Id, email: string, provider: string,
                           providerUserId: string,
                           now: int)
      returns (r: StoreResult<User>)
      modifies this`users, this`identities, this`organizations, this`memberships
      ensures (Tables(), r)
              == Repo.CreateOAuthUser(lower, old(Tables()), userId, identityId, orgId, email, provider, providerUserId, now)
      ensures r.Ok? <==> forall id | id in old(users) :: lower(old(users)[id].email) != lower(email)
      ensures r.Ok? ==>
                && r.value == User(userId, email, true, now) && users == old(users)[userId := r.value]
                && identities == old(identities)[identityId :=
                     Identity(identityId, userId, provider, providerUserId, None, now)]
                && organizations == old(organizations)[orgId :=
                     Organization(orgId, email + " (personal)", true, Some(userId), now)]
                && memberships == old(memberships)[(userId, orgId) := Membership(userId, orgId, Admin, now)]
      ensures r.Err? ==> r.error == AlreadyExists && Tables() == old(Tables())
    {
      var existing := GetUserByEmail(email);
      if existing.Some? {
        return Err(AlreadyExists);
      }
      var user := User(userId, email, true, now);
      users := users[userId := user];
      identities := identities[identityId := Identity(identityId, userId, provider, providerUserId, None, now)];
      InsertPersonalOrg(userId, email, orgId, now);
      return Ok(user);
    }

    method FindIdentity(provider: string, providerUserId: string) returns (r: Option<Identity>)
      ensures r.Some? <==> IdentityKnown(Tables(), provider, providerUserId)
      ensures r.Some? ==> r.value in identities.Values && IsIdentity(r.value, provider, providerUserId)
    {
      var todo := identities.Keys;
      while todo != {}
        invariant todo <= identities.Keys
        invariant forall id | id in identities && id !in todo :: !IsIdentity(identities[id], provider, providerUserId)
        decreases |todo|
      {
        var id :| id in todo;
        if IsIdentity(identities[id], provider, providerUserId) {
          return Some(identities[id]);
        }
        todo := todo - {id};
      }
      return None;
    }

    method LinkIdentity(userId: Id, identityId: Id, provider: string, providerUserId: string, secret: Option<string>,
                        now: int)
      returns (r: StoreResult<Identity>)
      modifies this`identities
      ensures Tables() == Repo.LinkIdentity(old(Tables()), Identity(identityId, userId, provider, providerUserId, secret, now))
      ensures r.Ok? ==> r.value in identities.Values && r.value.userId == userId && IsIdentity(r.value, provider, providerUserId)
      ensures identities == old(identities)
              || (r == Ok(Identity(identityId, userId, provider, providerUserId, secret, now))
                  && identities == old(identities)[identityId := r.value]
                  && forall id | id in old(identities) ::
                       old(identities)[id].provider != provider || old(identities)[id].providerUserId != providerUserId)
      ensures r.Err? ==>
                && r.error == Conflict
                && exists id | id in identities ::
                     identities[id].userId != userId && IsIdentity(identities[id], provider, providerUserId)
    {
      var existing := FindIdentity(provider, providerUserId);
      if existing.Some? {
        if existing.value.userId != userId {
          return Err(Conflict);
        }
        return Ok(existing.value);
      }
      var identity := Identity(identityId, userId, provider, providerUserId, secret, now);
      identities := identities[identityId := identity];
      assert identities[identityId] == identity;
      return Ok(identity);
    }

    method UpdateIdentitySecret(identityId: Id, secret: string) returns (r: StoreResult<()>)
      modifies this`identities
      ensures (Tables(), r) == Repo.UpdateIdentitySecret(old(Tables()), identityId, secret)
      ensures r == if identityId in old(identities) then Ok(()) else Err(NotFound)
      ensures identities.Keys == old(identities).Keys
      ensures forall id | id in identities ::
                identities[id] == if id == identityId then old(identities)[id].(secret := Some(secret))
                                  else old(identities)[id]
    {
      if identityId !in identities {
        return Err(NotFound);
      }
      identities := identities[identityId := identities[identityId].(secret := Some(secret))];
      return Ok(());
    }

    method CreateOrganization(orgId: Id, displayName: string, owner: Id, now: int) returns (r: StoreResult<Organization>)
      modifies this`organizations, this`memberships
      ensures (Tables(), r) == Repo.CreateOrganization(old(Tables()), orgId, displayName, owner, now)
      ensures if owner in users then
                && r == Ok(Organization(orgId, displayName, false, Some(owner), now))
                && organizations == old(organizations)[orgId := r.value]
                && memberships == old(memberships)[(owner, orgId) := Membership(owner, orgId, Admin, now)]
              else r == Err(NotFound) && organizations == old(organizations) && memberships == old(memberships)
    {
      if owner !in users {
        return Err(NotFound);
      }
      var org := Organization(orgId, displayName, false, Some(owner), now);
      organizations := organizations[orgId := org];
      memberships := memberships[(owner, orgId) := Membership(owner, orgId, Admin, now)];
      return Ok(org);
    }

    method DeleteOrganization(orgId: Id) returns (r: StoreResult<()>)
      modifies this`organizations, this`memberships
      ensures (Tables(), r) == Repo.DeleteOrganization(old(Tables()), orgId)
      ensures r.Ok? <==>
                && orgId in old(organizations) && !old(organizations)[orgId].personal
                && forall id | id in databases :: databases[id].orgId != orgId
      ensures r.Ok? ==>
                && orgId !in organizations
                && (forall id | id != orgId ::
                      (id in organizations <==> id in old(organizations))
                      && (id in organizations ==> organizations[id] == old(organizations)[id]))
                && (forall key: (Id, Id) | key.1 == orgId :: key !in memberships)
                && (forall key: (Id, Id) | key.1 != orgId ::
                      (key in memberships <==> key in old(memberships))
                      && (key in memberships ==> memberships[key] == old(memberships)[key]))
      ensures r.Err? ==>
                && r.error == (if orgId in organizations then Conflict else NotFound)
                && organizations == old(organizations) && memberships == old(memberships)
    {
      if orgId !in organizations {
        return Err(NotFound);
      }
      if organizations[orgId].personal {
        return Err(Conflict);
      }
      if exists id | id in databases :: databases[id].orgId == orgId {
        return Err(Conflict);
      }
      organizations := organizations - {orgId};
      memberships := map key | key in memberships && key.1 != orgId :: memberships[key];
      return Ok(());
    }

    method AddOrgMembership(userId: Id, orgId: Id, role: Role, now: int) returns (r: StoreResult<()>)
      modifies this`memberships
      ensures (Tables(), r) == AddMembership(old(Tables()), userId, orgId, role, now)
      ensures if (userId, orgId) in old(memberships) then r == Err(AlreadyExists) && memberships == old(memberships)
              else
                && r == Ok(())
                && memberships == old(memberships)[(userId, orgId) := Membership(userId, orgId, role, now)]
    {
      if (userId, orgId) in memberships {
        return Err(AlreadyExists);
      }
      memberships := memberships[(userId, orgId) := Membership(userId, orgId, role, now)];
      return Ok(());
    }

    /** `values().filter(...).count()` */
    method CountAdmins(orgId: Id) returns (count: nat)
      ensures count == |AdminRows(memberships, orgId)|
    {
      count := 0;
      var todo := memberships.Keys;
      CountStarts(memberships, orgId);
      while todo != {}
        invariant todo <= memberships.Keys
        invariant count == |AdminRows(memberships, orgId) - todo|
        decreases |todo|
      {
        var key :| key in todo;
        CountOne(memberships, orgId, todo, key);
        todo := todo - {key};
        if memberships[key].orgId == orgId && memberships[key].role == Admin {
          count := count + 1;
        }
      }
      assert AdminRows(memberships, orgId) - todo == AdminRows(memberships, orgId);
    }

    method RemoveOrgMembership(userId: Id, orgId: Id) returns (r: StoreResult<()>)
      modifies this`memberships
      ensures (Tables(), r) == RemoveMembership(old(Tables()), userId, orgId)
      ensures r.Ok? ==> memberships.Keys == old(memberships).Keys - {(userId, orgId)}
      ensures forall key | key in memberships :: key in old(memberships) && memberships[key] == old(memberships)[key]
      ensures r == Err(NotFound) <==> (userId, orgId) !in old(memberships)
      ensures r == Err(Conflict) ==> old(memberships)[(userId, orgId)].role == Admin
      ensures r.Err? ==> (r.error == NotFound || r.error == Conflict) && memberships == old(memberships)
    {
      var key := (userId, orgId);
      if key !in memberships {
        return Err(NotFound);
      }
      if memberships[key].role == Admin {
        var adminCount := CountAdmins(orgId);
        if adminCount <= 1 {
          return Err(Conflict);
        }
      }
      memberships := memberships - {key};
      return Ok(());
    }

    method CreateDatabase(dbId: Id, orgId: Id, name: string, createdBy: Id, now: int) returns (r: StoreResult<Database>)
      modifies this`databases
      ensures (Tables(), r) == Repo.CreateDatabase(old(Tables()), dbId, orgId, name, createdBy, now)
      ensures if orgId !in organizations then r == Err(NotFound) && databases == old(databases)
              else if exists id | id in old(databases) ::
                     old(databases)[id].orgId == orgId && old(databases)[id].name == name
              then r == Err(AlreadyExists) && databases == old(databases)
              else r == Ok(Database(dbId, orgId, name, createdBy, now)) && databases == old(databases)[dbId := r.value]
    {
      if orgId !in organizations {
        return Err(NotFound);
      }
      if exists id | id in databases :: databases[id].orgId == orgId && databases[id].name == name {
        return Err(AlreadyExists);
      }
      var db := Database(dbId, orgId, name, createdBy, now);
      databases := databases[dbId := db];
      return Ok(db);
    }

    method DeleteDatabase(dbId: Id) returns (r: StoreResult<()>)
      modifies this`databases
      ensures (Tables(), r) == Repo.DeleteDatabase(old(Tables()), dbId)
      ensures r == if dbId in old(databases) then Ok(()) else Err(NotFound)
      ensures databases.Keys == old(databases).Keys - {dbId}
      ensures forall id | id in databases :: databases[id] == old(databases)[id]
    {
      if dbId !in databases {
        return Err(NotFound);
      }
      databases := databases - {dbId};
      return Ok(());
    }

    method StoreOAuthState(o: OAuthState)
      modifies this`oauthStates
      ensures Tables() == Repo.StoreOAuthState(old(Tables()), o)
      ensures oauthStates == old(oauthStates)[o.state := o]
    {
      oauthStates := oauthStates[o.state := o];
    }

    method ConsumeOAuthState(state: string, now: int) returns (r: Option<OAuthState>)
      modifies this`oauthStates
      ensures (Tables(), r) == Repo.ConsumeOAuthState(old(Tables()), state, now)
      ensures oauthStates.Keys == old(oauthStates).Keys - {state}
      ensures forall name | name in oauthStates :: oauthStates[name] == old(oauthStates)[name]
      ensures r.Some? <==> state in old(oauthStates) && now <= old(oauthStates)[state].expiresAt
      ensures r.Some? ==> r.value == old(oauthStates)[state]
    {
      if state !in oauthStates {
        return None;
      }
      var s := oauthStates[state];
      oauthStates := oauthStates - {state};
      return if s.expiresAt < now then None else Some(s);
    }
  }
}
