/**
 * The local database of the portal (services/db.ts): a user table with a
 * session slot, and the progress table `userId -> resourceId -> record`.
 * The browser's storage and its JSON encoding are replaced by typed fields.
 */
module Store {

  import opened Types
  import JsText

  const DuplicateEmailMessage: string := "User with this email already exists."
  const InvalidCredentialsMessage: string := "Invalid email or password."

  /** A user as stored, with the password hash that the public `User` never carries. */
  datatype StoredUser = StoredUser(
    id: string,
    name: string,
    email: string,
    role: UserRole,
    village: Option<string>,
    passwordHash: string)

  /** The stored form of a public user once a hash is attached to it. */
  function WithPasswordHash(u: User, passwordHash: string): StoredUser
  {
    StoredUser(u.id, u.name, u.email, u.role, u.village, passwordHash)
  }

  /** `sanitizeUser`: the stored user without its password hash. */
  function Sanitize(u: StoredUser): (p: User)
    ensures WithPasswordHash(p, u.passwordHash) == u
  {
    User(u.id, u.name, u.email, u.role, u.village)
  }

  /** A `hashPassword` that maps distinct passwords to distinct hashes. */
  ghost predicate Injective(hash: string -> string)
  {
    forall p, q :: hash(p) == hash(q) ==> p == q
  }

  /**
   * With an injective hash, a freshly registered user can sign in with the
   * password they registered with, and with no other password.
   */
  lemma LoginAfterRegister(users: seq<StoredUser>, hash: string -> string, id: string, name: string,
                           email: string, village: string, password: string, attempt: string)
    requires Injective(hash) && !EmailTaken(users, email)
    ensures var after := users + [StoredUser(id, name, email, Citizen, Some(village), hash(password))];
      (exists i :: 0 <= i < |after| && after[i].email == email && after[i].passwordHash == hash(attempt))
      <==> attempt == password
  {
    var after := users + [StoredUser(id, name, email, Citizen, Some(village), hash(password))];
    if attempt == password {
      assert after[|users|].email == email;
    } else {
      forall i | 0 <= i < |after| && after[i].email == email ensures after[i].passwordHash != hash(attempt) {
        if i == |users| {
          assert hash(password) != hash(attempt);
        }
      }
    }
  }

  predicate EmailTaken(users: seq<StoredUser>, email: string)
  {
    exists i :: 0 <= i < |users| && users[i].email == email
  }

  ghost predicate EmailsUnique(users: seq<StoredUser>)
  {
    forall i, j :: 0 <= i < j < |users| ==> users[i].email != users[j].email
  }

  /** `users.find(u => u.email === email && (matchHash ==> u.passwordHash === hash))`: the first such index. */
  function FindUser(users: seq<StoredUser>, email: string, matchHash: bool, hash: string): (r: Option<nat>)
    ensures r.Some? ==> r.value < |users| && users[r.value].email == email
    ensures r.Some? && matchHash ==> users[r.value].passwordHash == hash
    ensures r.Some? ==> forall j :: 0 <= j < r.value ==>
      !(users[j].email == email && (matchHash ==> users[j].passwordHash == hash))
    ensures r.None? ==> forall j :: 0 <= j < |users| ==>
      !(users[j].email == email && (matchHash ==> users[j].passwordHash == hash))
  {
    if users == [] then None
    else if users[0].email == email && (matchHash ==> users[0].passwordHash == hash) then Some(0)
    else match FindUser(users[1..], email, matchHash, hash)
      case None => None
      case Some(k) => Some(k + 1)
  }

  /** A partial progress record, as `Partial<ResourceProgress>` passed to `saveUserProgress`. */
  datatype ProgressPatch = ProgressPatch(downloadStatus: Option<DownloadStatus>, progress: Option<int>)

  type ProgressTable = map<string, map<string, ResourceProgress>>

  /** `getUserProgress`: the user's records, or the empty mapping when there are none. */
  function UserProgress(table: ProgressTable, userId: string): (records: map<string, ResourceProgress>)
    ensures userId !in table ==> records == map[]
    ensures userId in table ==> records == table[userId]
  {
    if userId in table then table[userId] else map[]
  }

  function Lookup(table: ProgressTable, userId: string, resourceId: string): Option<ResourceProgress>
  {
    var records := UserProgress(table, userId);
    if resourceId in records then Some(records[resourceId]) else None
  }

  /**
   * A patch can be stored as a complete record when it names both fields or
   * when a record is already there to supply the missing ones.
   */
  predicate Applicable(prev: Option<ResourceProgress>, patch: ProgressPatch)
  {
    prev.Some? || (patch.downloadStatus.Some? && patch.progress.Some?)
  }

  /** `{ ...previous, ...patch, resourceId }`. */
  function Overlay(prev: Option<ResourceProgress>, patch: ProgressPatch, resourceId: string): (r: ResourceProgress)
    requires Applicable(prev, patch)
    ensures r.resourceId == resourceId
    ensures patch.downloadStatus.Some? ==> r.downloadStatus == patch.downloadStatus.value
    ensures patch.downloadStatus.None? ==> r.downloadStatus == prev.value.downloadStatus
    ensures patch.progress.Some? ==> r.progress == patch.progress.value
    ensures patch.progress.None? ==> r.progress == prev.value.progress
  {
    ResourceProgress(
      resourceId,
      match patch.downloadStatus case Some(s) => s case None => prev.value.downloadStatus,
      match patch.progress case Some(p) => p case None => prev.value.progress)
  }

  /**
   * `saveUserProgress` on the table: the patch is laid over the user's record
   * for the resource, and every other user and every other resource is kept.
   */
  function WriteProgress(table: ProgressTable, userId: string, resourceId: string, patch: ProgressPatch): (t: ProgressTable)
    requires Applicable(Lookup(table, userId, resourceId), patch)
    ensures t.Keys == table.Keys + {userId}
    ensures forall u :: u in table && u != userId ==> t[u] == table[u]
    ensures t[userId].Keys == UserProgress(table, userId).Keys + {resourceId}
    ensures forall r :: r in UserProgress(table, userId) && r != resourceId ==> t[userId][r] == table[userId][r]
    ensures t[userId][resourceId] == Overlay(Lookup(table, userId, resourceId), patch, resourceId)
  {
    var records := UserProgress(table, userId);
    table[userId := records[resourceId := Overlay(Lookup(table, userId, resourceId), patch, resourceId)]]
  }

  /** Every stored record carries the key it is stored under. */
  ghost predicate KeysMatch(table: ProgressTable)
  {
    forall u, r :: u in table && r in table[u] ==> table[u][r].resourceId == r
  }

  /** Writing keeps records keyed by their own resource id. */
  lemma WriteKeepsKeysMatch(table: ProgressTable, userId: string, resourceId: string, patch: ProgressPatch)
    requires KeysMatch(table)
    requires Applicable(Lookup(table, userId, resourceId), patch)
    ensures KeysMatch(WriteProgress(table, userId, resourceId, patch))
  {
  }

  /** Writing (downloaded, 100) and reading the user back yields that record. */
  lemma WriteThenRead(table: ProgressTable, userId: string, resourceId: string)
    ensures var records := UserProgress(WriteProgress(table, userId, resourceId, ProgressPatch(Some(Downloaded), Some(100))), userId);
      resourceId in records && records[resourceId] == ResourceProgress(resourceId, Downloaded, 100)
  {
  }

  /** A complete patch written twice leaves the table as one write does. */
  lemma WriteCompleteIdempotent(table: ProgressTable, userId: string, resourceId: string, patch: ProgressPatch)
    requires patch.downloadStatus.Some? && patch.progress.Some?
    ensures var once := WriteProgress(table, userId, resourceId, patch);
      WriteProgress(once, userId, resourceId, patch) == once
  {
    var once := WriteProgress(table, userId, resourceId, patch);
    var twice := WriteProgress(once, userId, resourceId, patch);
    assert twice[userId] == once[userId];
  }

  /** Every stored record pairs a status with a progress the download simulator can produce. */
  ghost predicate RecordsConsistent(table: ProgressTable)
  {
    forall u, r :: u in table && r in table[u] ==> StatusProgressOk(table[u][r].downloadStatus, table[u][r].progress)
  }

  /** Writing a complete, consistent record keeps every stored record consistent. */
  lemma WriteKeepsRecordsConsistent(table: ProgressTable, userId: string, resourceId: string,
                                    status: DownloadStatus, progress: int)
    requires RecordsConsistent(table) && StatusProgressOk(status, progress)
    ensures RecordsConsistent(WriteProgress(table, userId, resourceId, ProgressPatch(Some(status), Some(progress))))
  {
    var t: ProgressTable := WriteProgress(table, userId, resourceId, ProgressPatch(Some(status), Some(progress)));
    forall u: string, r: string | u in t && r in t[u]
      ensures StatusProgressOk(t[u][r].downloadStatus, t[u][r].progress)
    {
      if u != userId || r != resourceId {
        assert t[u][r] == table[u][r];
      }
    }
  }

  /** The database service; `hash` stands for `hashPassword`, required to be injective. */
  class Database {
    const hash: string -> string
    var users: seq<StoredUser>
    var session: Option<User>
    var progress: ProgressTable

    ghost predicate Valid()
      reads this
    {
      Injective(hash) && EmailsUnique(users) && KeysMatch(progress)
    }

    /** Empty storage. */
    constructor (hash: string -> string)
      requires Injective(hash)
      ensures Valid() && this.hash == hash
      ensures users == [] && session == None && progress == map[]
    {
      this.hash := hash;
      users := [];
      session := None;
      progress := map[];
    }

    /**
     * `register`: rejects an email already in the table; otherwise appends a
     * citizen whose id is the current time in milliseconds, opens a session for
     * it and returns it without the hash.
     */
    method Register(name: string, email: string, password: string, village: string, now: nat)
      returns (result: Result<User>)
      requires Valid()
      modifies this
      ensures Valid() && progress == old(progress)
      ensures EmailTaken(old(users), email) ==>
        result == Err(DuplicateEmailMessage) && users == old(users) && session == old(session)
      ensures !EmailTaken(old(users), email) ==>
        var stored := StoredUser(JsText.Decimal(now), name, email, Citizen, Some(village), hash(password));
        && users == old(users) + [stored]
        && session == Some(Sanitize(stored))
        && result == Ok(Sanitize(stored))
    {
      if FindUser(users, email, false, "").Some? {
        return Err(DuplicateEmailMessage);
      }
      var newUser := StoredUser(JsText.Decimal(now), name, email, Citizen, Some(village), hash(password));
      users := users + [newUser];
      CreateSession(newUser);
      result := Ok(Sanitize(newUser));
    }

    /**
     * `login`: succeeds exactly when some stored user has this email and the
     * hash of this password; the session then holds that user.
     */
    method Login(email: string, password: string) returns (result: Result<User>)
      requires Valid()
      modifies this
      ensures Valid() && users == old(users) && progress == old(progress)
      ensures result.Ok? <==>
        exists i :: 0 <= i < |users| && users[i].email == email && users[i].passwordHash == hash(password)
      ensures forall i :: 0 <= i < |users| && users[i].email == email && users[i].passwordHash == hash(password) ==>
        result == Ok(Sanitize(users[i])) && session == Some(Sanitize(users[i]))
      ensures result.Err? ==> result.message == InvalidCredentialsMessage && session == old(session)
    {
      var found := FindUser(users, email, true, hash(password));
      if found.None? {
        return Err(InvalidCredentialsMessage);
      }
      var user := users[found.value];
      CreateSession(user);
      result := Ok(Sanitize(user));
    }

    /** `logout`: the session slot is emptied. */
    method Logout()
      requires Valid()
      modifies this
      ensures Valid() && session == None
      ensures users == old(users) && progress == old(progress)
    {
      session := None;
    }

    method GetSession() returns (s: Option<User>)
      ensures s == session
    {
      s := session;
    }

    method CreateSession(user: StoredUser)
      requires Valid()
      modifies this
      ensures Valid() && session == Some(Sanitize(user))
      ensures users == old(users) && progress == old(progress)
    {
      session := Some(Sanitize(user));
    }

    /** `getUserProgress`: the records of one user; empty when the user has none. */
    method GetUserProgress(userId: string) returns (records: map<string, ResourceProgress>)
      requires Valid()
      ensures records == UserProgress(progress, userId)
      ensures forall r :: r in records ==> records[r].resourceId == r
    {
      records := if userId in progress then progress[userId] else map[];
    }

    /** `saveUserProgress`: lays the patch over one record in place. */
    method SaveUserProgress(userId: string, resourceId: string, patch: ProgressPatch)
      requires Valid()
      requires Applicable(Lookup(progress, userId, resourceId), patch)
      modifies this
      ensures Valid() && users == old(users) && session == old(session)
      ensures progress == WriteProgress(old(progress), userId, resourceId, patch)
    {
      var records := if userId in progress then progress[userId] else map[];
      var previous := if resourceId in records then Some(records[resourceId]) else None;
      records := records[resourceId := Overlay(previous, patch, resourceId)];
      progress := progress[userId := records];
    }
  }
}
