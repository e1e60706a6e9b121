/** The PostgreSQL server and the credential vault as the duplicate code sees them:
    databases with owners and CONNECT grants, roles, role grants and vault rows. Each
    call either has the effect of its SQL statement or fails without effect. */
module Catalog {
  import opened Prelude

  datatype Grantee = Public | RoleGrantee(name: Name)

  /** objects lists the owners of the objects inside the database. */
  datatype Database = Database(
    owner: Name, connect: set<Grantee>, allowConn: bool, isTemplate: bool, objects: seq<Name>)

  datatype Role = Role(superuser: bool, login: bool)

  /** grants holds (member, role) pairs. */
  datatype Catalog = Catalog(
    dbs: map<Name, Database>, roles: map<Name, Role>, vault: map<Name, string>, grants: set<(Name, Name)>)

  datatype Policy = Policy(databases: set<Name>, roles: set<Name>, admin: Name, hasVaultKey: bool) {
    predicate DatabaseDenied(name: Name) { name in databases }

    predicate OwnerDenied(owner: Name) { "pg_" <= owner || owner in roles }

    predicate Manageable(name: Name, row: Database) {
      row.allowConn && !row.isTemplate && !DatabaseDenied(name) && !OwnerDenied(row.owner)
    }

    predicate SkipGrantSetRole(owner: Name) { admin == "" || admin == "postgres" || admin == owner }
  }

  datatype Error =
    | InvalidIdentifier | NotFound | Unavailable | Protected | Conflict(field: Field) | FieldError(field: Field)
    | DuplicateInProgress | TruncateInProgress | DropInProgress | IsolationChanged
    | RoleDropFailed | VaultDeleteFailed

  datatype Field = DatabaseField | OwnerField

  predicate IdentifierStart(c: char) { 'A' <= c <= 'Z' || 'a' <= c <= 'z' || c == '_' }

  predicate ValidIdentifier(name: Name) {
    0 < |name| <= 63 && IdentifierStart(name[0]) &&
    forall i :: 0 <= i < |name| ==> IdentifierStart(name[i]) || '0' <= name[i] <= '9'
  }

  datatype Call =
    | Lookup(db: Name) | DatabaseExists(db: Name) | RoleExists(role: Name) | SavedRole(role: Name)
    | GeneratePassword | LockNames | ExternalCheck | Encrypt
    | OwnershipSnapshot(db: Name)
    | CreateRole(role: Name)
    | GrantSetRole(role: Name, admin: Name)
    | TerminateSessions(db: Name)
    | CreateFromTemplate(db: Name, source: Name, owner: Name)
    | CreateDatabase(db: Name, owner: Name)
    | RevokePublicConnect(db: Name)
    | GrantConnect(db: Name, role: Name)
    | InsertCredential(role: Name, token: string)
    | TransferOwnership(db: Name, owner: Name)
    | DeleteCredential(role: Name)
    | DropIfExists(db: Name)
    | DropDatabase(db: Name)
    | OwnedDatabaseCount(role: Name)
    | DropRole(role: Name)

  datatype Reply =
    | Failure(error: Error)
    | Done
    | Answer(yes: bool)
    | Row(row: Database, ownerRole: Role)
    | Snapshot(owner: Name, connect: set<Grantee>)
    | Count(n: nat)

  function OwnedBy(c: Catalog, role: Name): set<Name> {
    set d | d in c.dbs && c.dbs[d].owner == role
  }

  function RoleOf(c: Catalog, name: Name): Role {
    if name in c.roles then c.roles[name] else Role(false, false)
  }

  predicate SkipsTransfer(p: Policy, c: Catalog, owner: Name) {
    RoleOf(c, owner).superuser || p.OwnerDenied(owner)
  }

  /** Owners after the transfer: everything moves except what the policy or superuser
      ownership keeps where it is. */
  function Transferred(p: Policy, c: Catalog, objects: seq<Name>, newOwner: Name): seq<Name> {
    seq(|objects|, i requires 0 <= i < |objects| => if SkipsTransfer(p, c, objects[i]) then objects[i] else newOwner)
  }

  function Perform(p: Policy, c: Catalog, call: Call): (Catalog, Reply) {
    match call
    case Lookup(db) =>
      (c, if db in c.dbs then Row(c.dbs[db], RoleOf(c, c.dbs[db].owner)) else Failure(NotFound))
    case DatabaseExists(db) => (c, Answer(db in c.dbs))
    case RoleExists(r) => (c, Answer(r in c.roles))
    case SavedRole(r) => (c, Answer(r in c.vault))
    case GeneratePassword => (c, Done)
    case LockNames => (c, Done)
    case ExternalCheck => (c, Done)
    case Encrypt => (c, Done)
    case OwnershipSnapshot(db) =>
      (c, if db in c.dbs then Snapshot(c.dbs[db].owner, c.dbs[db].connect) else Failure(NotFound))
    case CreateRole(r) =>
      if r in c.roles then (c, Failure(Conflict(OwnerField))) else (c.(roles := c.roles[r := Role(false, true)]), Done)
    case GrantSetRole(r, admin) => (c.(grants := c.grants + {(admin, r)}), Done)
    case TerminateSessions(db) => (c, Done)
    case CreateFromTemplate(db, source, owner) =>
      if db in c.dbs then (c, Failure(Conflict(DatabaseField)))
      else if source !in c.dbs || owner !in c.roles then (c, Failure(Unavailable))
      else (c.(dbs := c.dbs[db := Database(owner, {Public}, true, false, c.dbs[source].objects)]), Done)
    case CreateDatabase(db, owner) =>
      if db in c.dbs then (c, Failure(Conflict(DatabaseField)))
      else if owner !in c.roles then (c, Failure(Unavailable))
      else (c.(dbs := c.dbs[db := Database(owner, {Public}, true, false, [])]), Done)
    case RevokePublicConnect(db) =>
      if db !in c.dbs then (c, Failure(Unavailable))
      else (c.(dbs := c.dbs[db := c.dbs[db].(connect := c.dbs[db].connect - {Public})]), Done)
    case GrantConnect(db, r) =>
      if db !in c.dbs || r !in c.roles then (c, Failure(Unavailable))
      else (c.(dbs := c.dbs[db := c.dbs[db].(connect := c.dbs[db].connect + {RoleGrantee(r)})]), Done)
    case InsertCredential(r, token) =>
      if r in c.vault then (c, Failure(Conflict(OwnerField))) else (c.(vault := c.vault[r := token]), Done)
    case TransferOwnership(db, owner) =>
      if db !in c.dbs then (c, Failure(Unavailable))
      else (c.(dbs := c.dbs[db := c.dbs[db].(objects := Transferred(p, c, c.dbs[db].objects, owner))]), Done)
    case DeleteCredential(r) => (c.(vault := c.vault - {r}), Done)
    case DropIfExists(db) => (c.(dbs := c.dbs - {db}), Done)
    case DropDatabase(db) =>
      if db in c.dbs then (c.(dbs := c.dbs - {db}), Done) else (c, Failure(Unavailable))
    case OwnedDatabaseCount(r) => (c, Count(|OwnedBy(c, r)|))
    case DropRole(r) =>
      (c.(roles := c.roles - {r}, grants := set g | g in c.grants && g.0 != r && g.1 != r), Done)
  }

  /** How a call fails when the server, the vault or the process does not answer. */
  function FaultOf(call: Call): Error {
    if call.LockNames? then DuplicateInProgress else Unavailable
  }

  function Attempt(p: Policy, c: Catalog, call: Call, fault: bool): (Catalog, Reply) {
    if fault then (c, Failure(FaultOf(call))) else Perform(p, c, call)
  }

  /** Every database belongs to an existing role. */
  predicate Owned(c: Catalog) {
    forall d :: d in c.dbs ==> c.dbs[d].owner in c.roles
  }

  /** Role grants mention existing roles only. */
  predicate GrantsKnown(c: Catalog) {
    forall g :: g in c.grants ==> g.0 in c.roles && g.1 in c.roles
  }

  /** Two catalogs that differ at most in database d, role r, its grants and its vault row. */
  predicate SameOutside(a: Catalog, b: Catalog, d: Name, r: Name) {
    a.dbs - {d} == b.dbs - {d} && a.roles - {r} == b.roles - {r} && a.vault - {r} == b.vault - {r} &&
    (forall g :: g in a.grants && g.0 != r && g.1 != r ==> g in b.grants) &&
    (forall g :: g in b.grants && g.0 != r && g.1 != r ==> g in a.grants)
  }
}
