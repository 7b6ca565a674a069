/**
 * The database rows (backend/models_user.py): users, detections and
 * blacklist entries, their column limits and the uniqueness constraints,
 * stated as invariants of a table held as a sequence ordered by id.
 */
module Models {
  import opened Wrappers
  import opened Preprocessing

  const UsernameMax := 50
  const EmailMax := 100
  const PasswordMax := 128
  const IpMax := 45
  const ReasonMax := 255
  const DefaultPassword := "changeme"

  datatype User = User(id: nat, username: string, email: string, password: string)

  /** A detection; `destIp` and `features` are nullable columns. */
  datatype Detection = Detection(id: nat, srcIp: string, destIp: Option<string>, score: real,
                                 isMalicious: bool, features: Option<NormalizedJson>)

  /** A blacklist entry; `reason` is a nullable column. */
  datatype BlacklistEntry = BlacklistEntry(id: nat, ip: string, reason: Option<string>)

  predicate UserFits(u: User) {
    |u.username| <= UsernameMax && |u.email| <= EmailMax && |u.password| <= PasswordMax
  }

  predicate DetectionFits(d: Detection) {
    |d.srcIp| <= IpMax && (d.destIp.Some? ==> |d.destIp.value| <= IpMax)
  }

  predicate EntryFits(e: BlacklistEntry) {
    |e.ip| <= IpMax && (e.reason.Some? ==> |e.reason.value| <= ReasonMax)
  }

  /** The ids of a table, in row order, strictly increase and stay below the next id to hand out. */
  predicate IdsBelow(ids: seq<nat>, next: nat) {
    && (forall i, j | 0 <= i < j < |ids| :: ids[i] < ids[j])
    && (forall i | 0 <= i < |ids| :: ids[i] < next)
  }

  function UserIds(users: seq<User>): seq<nat> { seq(|users|, i requires 0 <= i < |users| => users[i].id) }
  function DetectionIds(ds: seq<Detection>): seq<nat> { seq(|ds|, i requires 0 <= i < |ds| => ds[i].id) }
  function EntryIds(es: seq<BlacklistEntry>): seq<nat> { seq(|es|, i requires 0 <= i < |es| => es[i].id) }

  /** The users table: ordered ids, unique usernames, unique emails, column limits. */
  predicate UsersTable(users: seq<User>, next: nat) {
    && IdsBelow(UserIds(users), next)
    && (forall i, j | 0 <= i < j < |users| :: users[i].username != users[j].username)
    && (forall i, j | 0 <= i < j < |users| :: users[i].email != users[j].email)
    && (forall i | 0 <= i < |users| :: UserFits(users[i]))
  }

  /** The detections table: ordered ids and column limits. */
  predicate DetectionsTable(ds: seq<Detection>, next: nat) {
    && IdsBelow(DetectionIds(ds), next)
    && (forall i | 0 <= i < |ds| :: DetectionFits(ds[i]))
  }

  /** The blacklist table: ordered ids, unique ips, column limits. */
  predicate BlacklistTable(es: seq<BlacklistEntry>, next: nat) {
    && IdsBelow(EntryIds(es), next)
    && (forall i, j | 0 <= i < j < |es| :: es[i].ip != es[j].ip)
    && (forall i | 0 <= i < |es| :: EntryFits(es[i]))
  }

  /** Appending a row whose id is the next one keeps the ids ordered and below the new next id. */
  lemma IdsBelowAppend(ids: seq<nat>, next: nat)
    requires IdsBelow(ids, next)
    ensures IdsBelow(ids + [next], next + 1)
  {
  }

  /** A user with a fresh username and email, the next id and fitting columns keeps the users table valid. */
  lemma InsertUserKeepsTable(users: seq<User>, next: nat, u: User)
    requires UsersTable(users, next)
    requires u.id == next && UserFits(u)
    requires forall x | x in users :: x.username != u.username && x.email != u.email
    ensures UsersTable(users + [u], next + 1)
  {
    assert UserIds(users + [u]) == UserIds(users) + [next];
    IdsBelowAppend(UserIds(users), next);
  }

  /** A detection with the next id and fitting columns keeps the detections table valid. */
  lemma InsertDetectionKeepsTable(ds: seq<Detection>, next: nat, d: Detection)
    requires DetectionsTable(ds, next)
    requires d.id == next && DetectionFits(d)
    ensures DetectionsTable(ds + [d], next + 1)
  {
    assert DetectionIds(ds + [d]) == DetectionIds(ds) + [next];
    IdsBelowAppend(DetectionIds(ds), next);
  }

  /** An entry with a fresh ip, the next id and fitting columns keeps the blacklist table valid. */
  lemma InsertEntryKeepsTable(es: seq<BlacklistEntry>, next: nat, e: BlacklistEntry)
    requires BlacklistTable(es, next)
    requires e.id == next && EntryFits(e)
    requires forall x | x in es :: x.ip != e.ip
    ensures BlacklistTable(es + [e], next + 1)
  {
    assert EntryIds(es + [e]) == EntryIds(es) + [next];
    IdsBelowAppend(EntryIds(es), next);
  }

  /** Removing the row at `k` keeps the blacklist table valid. */
  lemma RemoveEntryKeepsTable(es: seq<BlacklistEntry>, next: nat, k: nat)
    requires BlacklistTable(es, next) && k < |es|
    ensures BlacklistTable(es[..k] + es[k + 1..], next)
  {
    var r := es[..k] + es[k + 1..];
    forall i | 0 <= i < |r| ensures r[i] == es[Skip(i, k)] {}
    var ids, ids0 := EntryIds(r), EntryIds(es);
    forall i, j | 0 <= i < j < |r| ensures ids[i] < ids[j] && r[i].ip != r[j].ip {
      assert ids[i] == ids0[Skip(i, k)] && ids[j] == ids0[Skip(j, k)];
    }
    forall i | 0 <= i < |r| ensures ids[i] < next && EntryFits(r[i]) {
      assert ids[i] == ids0[Skip(i, k)];
    }
  }

  /** The index in the full table of position `i` once the row at `k` is gone. */
  function Skip(i: nat, k: nat): nat { if i < k then i else i + 1 }
}
