/**
 * The `App` component of App.tsx, as the state it keeps and the handlers
 * that change it: the language, the page, the signed-in user, the resource
 * list, the auth modal flag, and the download simulator with its timer
 * registry. Timers are made explicit: `intervals` holds the live interval
 * handles with what each callback captured, and `Tick(handle)` is one firing.
 */
module Portal {

  import opened Types
  import opened Downloads
  import opened Store
  import WebResources
  import JsText

  /** The four pages of the portal. */
  datatype View = Landing | CitizenPortal | AdminDashboard | Learning

  /**
   * What a `setInterval` callback of `startDownload` closes over: the
   * resource id and the user signed in when the download started.
   */
  datatype Interval = Interval(resourceId: string, user: User)

  /** Every catalog list is consistent and free of duplicate ids. */
  ghost predicate CatalogOk(catalog: Language -> seq<ResourceItem>)
  {
    forall l :: AllItemsOk(catalog(l)) && UniqueIds(catalog(l))
  }

  /** The records of one user in a consistent table are consistent. */
  lemma UserRecordsOk(table: ProgressTable, userId: string)
    requires RecordsConsistent(table)
    ensures RecordsOk(UserProgress(table, userId))
  {
  }

  /** No id of `rs` is one the clock could give a parsed web item. */
  ghost predicate ClockIdsFresh(rs: seq<ResourceItem>, clock: nat -> nat)
  {
    forall k: nat, j :: 0 <= j < |rs| ==> rs[j].id != WebResources.WebId(clock(k), k)
  }

  /** Joining two consistent lists gives a consistent list. */
  lemma ConcatItemsOk(items: seq<ResourceItem>, rs: seq<ResourceItem>)
    requires AllItemsOk(items) && AllItemsOk(rs)
    ensures AllItemsOk(items + rs)
  {
    var merged := items + rs;
    forall i | 0 <= i < |merged| ensures ItemOk(merged[i]) {
      if i >= |items| { assert merged[i] == rs[i - |items|]; }
    }
  }

  /**
   * Putting parsed web items in front of a consistent list keeps it consistent
   * and free of duplicate ids, as long as the clock's ids are not in the list.
   */
  lemma PrependKeepsItemsOk(items: seq<ResourceItem>, rs: seq<ResourceItem>, clock: nat -> nat)
    requires AllItemsOk(items) && UniqueIds(items) && AllItemsOk(rs) && UniqueIds(rs)
    requires forall k :: 0 <= k < |items| ==> WebResources.IsWebId(items[k].id, clock)
    requires ClockIdsFresh(rs, clock)
    ensures AllItemsOk(items + rs) && UniqueIds(items + rs)
  {
    var merged := items + rs;
    forall i, j | 0 <= i < j < |merged| ensures merged[i].id != merged[j].id {
      if i < |items| <= j {
        var k: nat :| items[i].id == WebResources.WebId(clock(k), k);
        assert merged[j] == rs[j - |items|];
      }
    }
  }

  /**
   * The update of `handleDiscoverOnline`: the items parsed from the response
   * go in front of the list `rs`, which follows unchanged. The result is
   * consistent when `rs` is, and free of duplicate ids when `rs` is and holds
   * none of the ids the clock gives.
   */
  method PrependDiscovered(text: Option<string>, clock: nat -> nat, rs: seq<ResourceItem>)
    returns (r: seq<ResourceItem>)
    ensures r == WebResources.Discovered(text, clock) + rs
    ensures |r| >= |rs| && r[|r| - |rs|..] == rs
    ensures AllItemsOk(rs) ==> AllItemsOk(r)
    ensures AllItemsOk(rs) && UniqueIds(rs) && ClockIdsFresh(rs, clock) ==> UniqueIds(r)
  {
    var newItems := WebResources.ParseWebResources(text, clock);
    if AllItemsOk(rs) {
      ConcatItemsOk(newItems, rs);
      if UniqueIds(rs) && ClockIdsFresh(rs, clock) {
        PrependKeepsItemsOk(newItems, rs, clock);
      }
    }
    r := newItems + rs;
    assert r[|newItems|..] == rs;
  }

  class App {
    /** The shared database service. */
    const db: Database
    /** `RESOURCES_BY_LANG`: the built-in catalog of each language. */
    const catalog: Language -> seq<ResourceItem>

    var currentLang: Language
    var view: View
    var user: Option<User>
    var resources: seq<ResourceItem>
    var showAuthModal: bool
    /** `timers.current`: the last handle registered for each resource id; `clearInterval` keeps the key. */
    var timers: map<string, nat>
    /** The intervals that are still live, by handle. */
    var intervals: map<nat, Interval>
    /** The handle the next `setInterval` returns; handles are positive. */
    var nextHandle: nat

    ghost predicate Valid()
      reads this, db
    {
      && db.Valid()
      && RecordsConsistent(db.progress)
      && CatalogOk(catalog)
      && AllItemsOk(resources) && UniqueIds(resources)
      && user == db.session
      && nextHandle >= 1
      && (forall h :: h in intervals ==> 0 < h < nextHandle && intervals[h].resourceId in timers)
      && (forall id :: id in timers ==> 0 < timers[id] < nextHandle)
    }

    /**
     * Mounting the component: English, the landing page, no timers; the
     * session effect then takes the stored session, if any, and lays that
     * user's progress over the English catalog.
     */
    constructor (db: Database, catalog: Language -> seq<ResourceItem>)
      requires db.Valid() && RecordsConsistent(db.progress) && CatalogOk(catalog)
      ensures Valid() && this.db == db && this.catalog == catalog
      ensures currentLang == English && view == Landing && !showAuthModal
      ensures user == db.session
      ensures db.session.Some? ==> resources == Merge(catalog(English), UserProgress(db.progress, db.session.value.id))
      ensures db.session.None? ==> resources == catalog(English)
      ensures timers == map[] && intervals == map[]
    {
      this.db := db;
      this.catalog := catalog;
      currentLang := English;
      view := Landing;
      showAuthModal := false;
      timers := map[];
      intervals := map[];
      nextHandle := 1;
      user := db.session;
      if db.session.Some? {
        UserRecordsOk(db.progress, db.session.value.id);
        MergeKeepsItemsOk(catalog(English), UserProgress(db.progress, db.session.value.id));
        resources := Merge(catalog(English), UserProgress(db.progress, db.session.value.id));
      } else {
        resources := catalog(English);
      }
    }

    /** `loadUserProgress`: the user's stored records laid over the catalog of `lang`. */
    method LoadUserProgress(userId: string, lang: Language)
      requires Valid()
      modifies this
      ensures Valid()
      ensures resources == Merge(catalog(lang), UserProgress(db.progress, userId))
      ensures currentLang == old(currentLang) && view == old(view) && user == old(user)
      ensures showAuthModal == old(showAuthModal)
      ensures timers == old(timers) && intervals == old(intervals) && nextHandle == old(nextHandle)
    {
      var progressMap := db.GetUserProgress(userId);
      UserRecordsOk(db.progress, userId);
      MergeKeepsItemsOk(catalog(lang), progressMap);
      resources := Merge(catalog(lang), progressMap);
    }

    /**
     * Choosing a language; when it differs from the current one the session
     * effect runs again: with a session the user is taken from it and their
     * progress merged into the new catalog, without one the raw catalog is shown.
     */
    method SetLanguage(lang: Language)
      requires Valid()
      modifies this
      ensures Valid() && currentLang == lang
      ensures lang == old(currentLang) ==> resources == old(resources)
      ensures lang != old(currentLang) && db.session.Some? ==>
        resources == Merge(catalog(lang), UserProgress(db.progress, db.session.value.id))
      ensures lang != old(currentLang) && db.session.None? ==> resources == catalog(lang)
      ensures view == old(view) && user == old(user) && showAuthModal == old(showAuthModal)
      ensures timers == old(timers) && intervals == old(intervals) && nextHandle == old(nextHandle)
    {
      if lang == currentLang {
        return;
      }
      currentLang := lang;
      var session := db.GetSession();
      if session.Some? {
        user := session;
        LoadUserProgress(session.value.id, currentLang);
      } else {
        resources := catalog(currentLang);
      }
    }

    /**
     * `handleLogin`: a failed login leaves the portal as it was and passes the
     * error on; a successful one signs the user in, loads their progress and
     * opens the admin dashboard for an admin, the citizen portal otherwise.
     */
    method HandleLogin(email: string, password: string) returns (result: Result<User>)
      requires Valid()
      modifies this, db
      ensures Valid()
      ensures db.users == old(db.users) && db.progress == old(db.progress)
      ensures result.Ok? <==>
        exists i :: 0 <= i < |db.users| && db.users[i].email == email && db.users[i].passwordHash == db.hash(password)
      ensures forall i :: 0 <= i < |db.users| && db.users[i].email == email && db.users[i].passwordHash == db.hash(password) ==>
        result == Ok(Sanitize(db.users[i]))
      ensures result.Err? ==> result.message == InvalidCredentialsMessage
      ensures result.Err? ==> user == old(user) && resources == old(resources) && view == old(view)
      ensures result.Ok? ==>
        && user == Some(result.value)
        && resources == Merge(catalog(currentLang), UserProgress(db.progress, result.value.id))
        && view == (if result.value.role == Admin then AdminDashboard else CitizenPortal)
      ensures currentLang == old(currentLang) && showAuthModal == old(showAuthModal)
      ensures timers == old(timers) && intervals == old(intervals) && nextHandle == old(nextHandle)
    {
      result := db.Login(email, password);
      if result.Err? {
        return;
      }
      user := Some(result.value);
      LoadUserProgress(result.value.id, currentLang);
      if result.value.role == Admin {
        view := AdminDashboard;
      } else {
        view := CitizenPortal;
      }
    }

    /**
     * `handleRegister`: a rejected registration leaves the portal as it was;
     * otherwise the new citizen is signed in, their (empty) progress merged,
     * and the citizen portal opened.
     */
    method HandleRegister(name: string, email: string, password: string, village: string, now: nat)
      returns (result: Result<User>)
      requires Valid()
      modifies this, db
      ensures Valid() && db.progress == old(db.progress)
      ensures EmailTaken(old(db.users), email) ==>
        && result == Err(DuplicateEmailMessage) && db.users == old(db.users) && db.session == old(db.session)
        && user == old(user) && resources == old(resources) && view == old(view)
      ensures !EmailTaken(old(db.users), email) ==>
        var stored := StoredUser(JsText.Decimal(now), name, email, Citizen, Some(village), db.hash(password));
        && db.users == old(db.users) + [stored]
        && result == Ok(Sanitize(stored))
        && user == Some(result.value)
        && resources == Merge(catalog(currentLang), UserProgress(db.progress, result.value.id))
        && view == CitizenPortal
      ensures currentLang == old(currentLang) && showAuthModal == old(showAuthModal)
      ensures timers == old(timers) && intervals == old(intervals) && nextHandle == old(nextHandle)
    {
      result := db.Register(name, email, password, village, now);
      if result.Err? {
        return;
      }
      user := Some(result.value);
      LoadUserProgress(result.value.id, currentLang);
      view := CitizenPortal;
    }

    /**
     * `handleLogout`: the session is removed, the landing page shown and the
     * raw catalog of the current language restored; live intervals keep running.
     */
    method HandleLogout()
      requires Valid()
      modifies this, db
      ensures Valid()
      ensures user == None && db.session == None && view == Landing
      ensures resources == catalog(currentLang)
      ensures db.users == old(db.users) && db.progress == old(db.progress)
      ensures currentLang == old(currentLang) && showAuthModal == old(showAuthModal)
      ensures timers == old(timers) && intervals == old(intervals) && nextHandle == old(nextHandle)
    {
      db.Logout();
      user := None;
      view := Landing;
      resources := catalog(currentLang);
    }

    /**
     * `handleDiscoverOnline` once the search response `text` is known: the
     * parsed items go in front of the current list. `clock` gives the time
     * read for each chunk; its ids are required not to be in the list already.
     */
    method HandleDiscoverOnline(text: Option<string>, clock: nat -> nat)
      requires Valid()
      requires ClockIdsFresh(resources, clock)
      modifies this
      ensures Valid()
      ensures resources == WebResources.Discovered(text, clock) + old(resources)
      ensures currentLang == old(currentLang) && view == old(view) && user == old(user)
      ensures showAuthModal == old(showAuthModal)
      ensures timers == old(timers) && intervals == old(intervals) && nextHandle == old(nextHandle)
    {
      assert AllItemsOk(resources) && UniqueIds(resources);
      resources := PrependDiscovered(text, clock, resources);
    }

    /**
     * `startDownload`: with nobody signed in only the auth modal opens.
     * Otherwise the item goes to downloading at 0 and a new interval,
     * capturing the id and the user, is registered under the id, replacing
     * the previous handle in `timers` but not stopping its interval.
     * Nothing is written to the store.
     */
    method StartDownload(id: string)
      requires Valid()
      modifies this
      ensures Valid()
      ensures old(user).None? ==>
        showAuthModal && resources == old(resources) &&
        timers == old(timers) && intervals == old(intervals) && nextHandle == old(nextHandle)
      ensures old(user).Some? ==>
        var h := old(nextHandle);
        && resources == Started(old(resources), id)
        && h !in old(intervals) && h > 0
        && timers == old(timers)[id := h]
        && intervals == old(intervals)[h := Interval(id, old(user).value)]
        && showAuthModal == old(showAuthModal)
      ensures currentLang == old(currentLang) && view == old(view) && user == old(user)
      ensures unchanged(db)
    {
      if user.None? {
        showAuthModal := true;
        return;
      }
      TransitionsKeepItemsOk(resources, id);
      resources := Started(resources, id);
      var interval := nextHandle;
      nextHandle := nextHandle + 1;
      intervals := intervals[interval := Interval(id, user.value)];
      timers := timers[id := interval];
    }

    /**
     * One firing of the interval `handle`: a no-op unless its item is still
     * downloading (the interval then stays live). Below 100 the progress goes
     * up by 10; at 100 the item is downloaded, the interval registered under
     * its id is cleared and (downloaded, 100) is written for the user the
     * interval captured.
     */
    method Tick(handle: nat)
      requires Valid() && handle in intervals
      modifies this, db
      ensures Valid()
      ensures var iv := old(intervals[handle]);
        && resources == Ticked(old(resources), iv.resourceId)
        && (TickEffectOf(old(resources), iv.resourceId) == Completed ==>
              && intervals == old(intervals) - {old(timers[iv.resourceId])}
              && db.progress == WriteProgress(old(db.progress), iv.user.id, iv.resourceId,
                                              ProgressPatch(Some(Downloaded), Some(100))))
        && (TickEffectOf(old(resources), iv.resourceId) != Completed ==>
              intervals == old(intervals) && db.progress == old(db.progress))
      ensures db.users == old(db.users) && db.session == old(db.session)
      ensures currentLang == old(currentLang) && view == old(view) && user == old(user)
      ensures showAuthModal == old(showAuthModal) && timers == old(timers) && nextHandle == old(nextHandle)
    {
      var interval := intervals[handle];
      var id := interval.resourceId;
      ghost var before := resources;
      var found := FindIndex(resources, id);
      if found.None? || resources[found.value].downloadStatus != Downloading {
        assert TickEffectOf(before, id) == NoOp && Ticked(before, id) == before;
        return;
      }
      var resource := resources[found.value];
      var nextProgress := resource.progress + 10;
      if nextProgress >= 100 {
        assert TickEffectOf(before, id) == Completed;
        CompleteDownload(interval, found.value);
        return;
      }
      assert TickEffectOf(before, id) == Advanced;
      TransitionsKeepItemsOk(resources, id);
      resources := UpdateWhere(resources, id, SetProgress(nextProgress));
      assert resources == Ticked(before, id);
    }

    /**
     * The last firing of a download: the interval registered under the id is
     * cleared, the item at `i` is clamped to 100 and marked downloaded, and so
     * is every item with that id, and the record is written for the captured user.
     */
    method CompleteDownload(interval: Interval, i: nat)
      requires Valid() && interval.resourceId in timers
      requires i < |resources| && FindIndex(resources, interval.resourceId) == Some(i)
      requires resources[i].downloadStatus == Downloading && resources[i].progress + 10 >= 100
      modifies this, db
      ensures Valid()
      ensures resources == Ticked(old(resources), interval.resourceId)
      ensures intervals == old(intervals) - {old(timers[interval.resourceId])}
      ensures db.progress == WriteProgress(old(db.progress), interval.user.id, interval.resourceId,
                                           ProgressPatch(Some(Downloaded), Some(100)))
      ensures db.users == old(db.users) && db.session == old(db.session)
      ensures currentLang == old(currentLang) && view == old(view) && user == old(user)
      ensures showAuthModal == old(showAuthModal) && timers == old(timers) && nextHandle == old(nextHandle)
    {
      var id := interval.resourceId;
      var updated := resources[i].(progress := 100, downloadStatus := Downloaded);
      CompletionStep(resources, id, i);
      resources := UpdateWhere(resources, id, ReplaceWith(updated));
      intervals := intervals - {timers[id]};
      WriteKeepsRecordsConsistent(db.progress, interval.user.id, id, Downloaded, 100);
      db.SaveUserProgress(interval.user.id, id, ProgressPatch(Some(Downloaded), Some(100)));
    }

    /**
     * `cancelDownload`: the interval registered under the id, if any, is
     * cleared; the item goes back to idle at 0 and, when someone is signed in,
     * (idle, 0) is written for them.
     */
    method CancelDownload(id: string)
      requires Valid()
      modifies this, db
      ensures Valid()
      ensures resources == Reset(old(resources), id)
      ensures id in old(timers) ==> intervals == old(intervals) - {old(timers[id])}
      ensures id !in old(timers) ==> intervals == old(intervals)
      ensures user.Some? ==>
        db.progress == WriteProgress(old(db.progress), user.value.id, id, ProgressPatch(Some(Idle), Some(0)))
      ensures user.None? ==> db.progress == old(db.progress)
      ensures db.users == old(db.users) && db.session == old(db.session)
      ensures currentLang == old(currentLang) && view == old(view) && user == old(user)
      ensures showAuthModal == old(showAuthModal) && timers == old(timers) && nextHandle == old(nextHandle)
    {
      if id in timers {
        intervals := intervals - {timers[id]};
      }
      ResetDownload(id);
    }

    /** `deleteDownload`: as `cancelDownload`, but no interval is cleared. */
    method DeleteDownload(id: string)
      requires Valid()
      modifies this, db
      ensures Valid()
      ensures resources == Reset(old(resources), id)
      ensures user.Some? ==>
        db.progress == WriteProgress(old(db.progress), user.value.id, id, ProgressPatch(Some(Idle), Some(0)))
      ensures user.None? ==> db.progress == old(db.progress)
      ensures db.users == old(db.users) && db.session == old(db.session)
      ensures currentLang == old(currentLang) && view == old(view) && user == old(user)
      ensures showAuthModal == old(showAuthModal)
      ensures timers == old(timers) && intervals == old(intervals) && nextHandle == old(nextHandle)
    {
      ResetDownload(id);
    }

    /** The part `cancelDownload` and `deleteDownload` share: reset the item and write (idle, 0) through. */
    method ResetDownload(id: string)
      requires Valid()
      modifies this, db
      ensures Valid()
      ensures resources == Reset(old(resources), id)
      ensures user.Some? ==>
        db.progress == WriteProgress(old(db.progress), user.value.id, id, ProgressPatch(Some(Idle), Some(0)))
      ensures user.None? ==> db.progress == old(db.progress)
      ensures db.users == old(db.users) && db.session == old(db.session)
      ensures currentLang == old(currentLang) && view == old(view) && user == old(user)
      ensures showAuthModal == old(showAuthModal)
      ensures timers == old(timers) && intervals == old(intervals) && nextHandle == old(nextHandle)
    {
      TransitionsKeepItemsOk(resources, id);
      resources := Reset(resources, id);
      if user.Some? {
        WriteKeepsRecordsConsistent(db.progress, user.value.id, id, Idle, 0);
        db.SaveUserProgress(user.value.id, id, ProgressPatch(Some(Idle), Some(0)));
      }
    }
  }
}
