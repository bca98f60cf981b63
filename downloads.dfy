/**
 * The pure parts of the download simulator in App.tsx: the list rewrites that
 * `setResources(prev => ...)` applies on start, tick, cancel and delete, the
 * rehydration merge of stored progress onto a catalog, and the search filter.
 */
module Downloads {

  import opened Types
  import opened JsText

  predicate SameIds(a: seq<ResourceItem>, b: seq<ResourceItem>)
  {
    |a| == |b| && forall i :: 0 <= i < |a| ==> a[i].id == b[i].id
  }

  /** `prev.find(r => r.id === id)`, as the index of the first item with that id. */
  function FindIndex(rs: seq<ResourceItem>, id: string): (r: Option<nat>)
    ensures r.Some? ==> r.value < |rs| && rs[r.value].id == id
    ensures r.Some? ==> forall j :: 0 <= j < r.value ==> rs[j].id != id
    ensures r.None? ==> forall j :: 0 <= j < |rs| ==> rs[j].id != id
  {
    if rs == [] then None
    else if rs[0].id == id then Some(0)
    else match FindIndex(rs[1..], id)
      case None => None
      case Some(k) => Some(k + 1)
  }

  /** The rewrites applied to matching items by `prev.map(r => r.id === id ? ... : r)`. */
  datatype Edit =
    | SetState(status: DownloadStatus, progress: int)  // { ...r, downloadStatus, progress }
    | SetProgress(progress: int)                         // { ...r, progress }
    | ReplaceWith(item: ResourceItem)                    // one prepared item for every match

  function Apply(e: Edit, r: ResourceItem): ResourceItem
  {
    match e
    case SetState(s, p) => r.(downloadStatus := s, progress := p)
    case SetProgress(p) => r.(progress := p)
    case ReplaceWith(item) => item
  }

  /** The list with every item whose id is `id` rewritten by `e`, in place and in order. */
  function UpdateWhere(rs: seq<ResourceItem>, id: string, e: Edit): (r: seq<ResourceItem>)
    ensures |r| == |rs|
    ensures forall i :: 0 <= i < |rs| && rs[i].id != id ==> r[i] == rs[i]
    ensures forall i :: 0 <= i < |rs| && rs[i].id == id ==> r[i] == Apply(e, rs[i])
    ensures (e.ReplaceWith? ==> e.item.id == id) ==> SameIds(r, rs)
  {
    if rs == [] then []
    else
      var rest := UpdateWhere(rs[1..], id, e);
      var r := [if rs[0].id == id then Apply(e, rs[0]) else rs[0]] + rest;
      assert forall i :: 1 <= i < |rs| ==> r[i] == rest[i - 1] && rs[i] == rs[1..][i - 1];
      r
  }

  /** `startDownload`'s rewrite: the item goes to downloading at 0. */
  function Started(rs: seq<ResourceItem>, id: string): (r: seq<ResourceItem>)
    ensures SameIds(r, rs)
    ensures forall i :: 0 <= i < |rs| ==>
      r[i] == if rs[i].id == id then rs[i].(downloadStatus := Downloading, progress := 0) else rs[i]
  {
    UpdateWhere(rs, id, SetState(Downloading, 0))
  }

  /** The rewrite of `cancelDownload` and `deleteDownload`: the item goes back to idle at 0. */
  function Reset(rs: seq<ResourceItem>, id: string): (r: seq<ResourceItem>)
    ensures SameIds(r, rs)
    ensures forall i :: 0 <= i < |rs| ==>
      r[i] == if rs[i].id == id then rs[i].(downloadStatus := Idle, progress := 0) else rs[i]
  {
    UpdateWhere(rs, id, SetState(Idle, 0))
  }

  /** What one firing of a download's interval does. */
  datatype TickEffect =
    | NoOp       // the item is gone or no longer downloading
    | Advanced   // progress + 10, still below 100
    | Completed  // clamped to 100 and downloaded; the timer is cleared and the store written

  function TickEffectOf(rs: seq<ResourceItem>, id: string): TickEffect
  {
    match FindIndex(rs, id)
    case None => NoOp
    case Some(i) =>
      if rs[i].downloadStatus != Downloading then NoOp
      else if rs[i].progress + 10 >= 100 then Completed
      else Advanced
  }

  /** The list after one firing of the interval for `id`. */
  function Ticked(rs: seq<ResourceItem>, id: string): (r: seq<ResourceItem>)
    ensures SameIds(r, rs)
  {
    match FindIndex(rs, id)
    case None => rs
    case Some(i) =>
      if rs[i].downloadStatus != Downloading then rs
      else if rs[i].progress + 10 >= 100 then
        UpdateWhere(rs, id, ReplaceWith(rs[i].(progress := 100, downloadStatus := Downloaded)))
      else
        UpdateWhere(rs, id, SetProgress(rs[i].progress + 10))
  }

  /** The completing firing replaces the item with its downloaded copy and keeps the list consistent. */
  lemma CompletionStep(rs: seq<ResourceItem>, id: string, i: nat)
    requires AllItemsOk(rs) && UniqueIds(rs)
    requires FindIndex(rs, id) == Some(i) && i < |rs|
    requires rs[i].downloadStatus == Downloading && rs[i].progress + 10 >= 100
    ensures var r := UpdateWhere(rs, id, ReplaceWith(rs[i].(progress := 100, downloadStatus := Downloaded)));
      r == Ticked(rs, id) && AllItemsOk(r) && UniqueIds(r)
  {
    TransitionsKeepItemsOk(rs, id);
  }

  /** `k` firings in a row. */
  function Ticks(rs: seq<ResourceItem>, id: string, k: nat): (r: seq<ResourceItem>)
    ensures SameIds(r, rs)
  {
    if k == 0 then rs else Ticked(Ticks(rs, id, k - 1), id)
  }

  /** A firing that finds nothing to advance leaves the list as it was. */
  lemma TickNoOpKeepsList(rs: seq<ResourceItem>, id: string)
    requires TickEffectOf(rs, id) == NoOp
    ensures Ticked(rs, id) == rs
  {
  }

  /** A firing touches only the items with that id, and keeps every id in place. */
  lemma TickedFrame(rs: seq<ResourceItem>, id: string)
    ensures SameIds(Ticked(rs, id), rs)
    ensures forall i :: 0 <= i < |rs| && rs[i].id != id ==> Ticked(rs, id)[i] == rs[i]
  {
  }

  /** Start, a firing, cancel and delete all keep every item's status and progress consistent. */
  lemma TransitionsKeepItemsOk(rs: seq<ResourceItem>, id: string)
    requires AllItemsOk(rs) && UniqueIds(rs)
    ensures AllItemsOk(Started(rs, id)) && UniqueIds(Started(rs, id))
    ensures AllItemsOk(Reset(rs, id)) && UniqueIds(Reset(rs, id))
    ensures AllItemsOk(Ticked(rs, id)) && UniqueIds(Ticked(rs, id))
  {
    TickedKeepsItemsOk(rs, id);
  }

  /** A firing keeps every item consistent: only the first item with the id can change. */
  lemma TickedKeepsItemsOk(rs: seq<ResourceItem>, id: string)
    requires AllItemsOk(rs) && UniqueIds(rs)
    ensures AllItemsOk(Ticked(rs, id)) && UniqueIds(Ticked(rs, id))
  {
    var s := Ticked(rs, id);
    match FindIndex(rs, id)
    case None =>
    case Some(j) =>
      forall i | 0 <= i < |s| ensures ItemOk(s[i]) {
        if rs[i].id == id {
          assert i == j;
        }
      }
  }

  /** Cancelling or deleting twice is the same as doing it once. */
  lemma ResetIdempotent(rs: seq<ResourceItem>, id: string)
    ensures Reset(Reset(rs, id), id) == Reset(rs, id)
  {
  }

  /** The item with id `id` sits at `j`, at state (status, progress); the rest is as in `rs`. */
  predicate OnlyChanged(s: seq<ResourceItem>, rs: seq<ResourceItem>, j: nat, status: DownloadStatus, progress: int)
    requires j < |rs|
  {
    && SameIds(s, rs)
    && (forall i :: 0 <= i < |rs| && i != j ==> s[i] == rs[i])
    && s[j] == rs[j].(downloadStatus := status, progress := progress)
  }

  /** One firing on an item downloading at 10 * m. */
  lemma TickFrom(rs: seq<ResourceItem>, s: seq<ResourceItem>, id: string, j: nat, m: nat)
    requires UniqueIds(rs) && j < |rs| && rs[j].id == id && m < 10
    requires OnlyChanged(s, rs, j, Downloading, 10 * m)
    ensures TickEffectOf(s, id) == (if m < 9 then Advanced else Completed)
    ensures OnlyChanged(Ticked(s, id), rs, j, if m < 9 then Downloading else Downloaded, 10 * (m + 1))
  {
    assert FindIndex(s, id) == Some(j);
    var t := Ticked(s, id);
    forall i | 0 <= i < |rs| && i != j ensures t[i] == rs[i] {
      assert s[i].id != id;
    }
  }

  /**
   * From a fresh start, after k firings (k < 10) the item is downloading at
   * 10 * k, and after ten it is downloaded at 100; no other item changes.
   * The next firing advances for k < 9, completes for k == 9, and does nothing
   * once the item is downloaded.
   */
  lemma {:induction false} TicksFromStart(rs: seq<ResourceItem>, id: string, j: nat, k: nat)
    requires UniqueIds(rs) && j < |rs| && rs[j].id == id && k <= 10
    ensures OnlyChanged(Ticks(Started(rs, id), id, k), rs, j, if k < 10 then Downloading else Downloaded, 10 * k)
    ensures TickEffectOf(Ticks(Started(rs, id), id, k), id) == (if k < 9 then Advanced else if k == 9 then Completed else NoOp)
  {
    var s := Ticks(Started(rs, id), id, k);
    if k == 0 {
      forall i | 0 <= i < |rs| && i != j ensures s[i] == rs[i] {
        assert rs[i].id != id;
      }
      TickFrom(rs, s, id, j, 0);
    } else {
      TicksFromStart(rs, id, j, k - 1);
      TickFrom(rs, Ticks(Started(rs, id), id, k - 1), id, j, k - 1);
      if k < 10 {
        TickFrom(rs, s, id, j, k);
      } else {
        assert FindIndex(s, id) == Some(j);
      }
    }
  }

  /** Exactly ten firings bring a fresh start to downloaded, and exactly one of them writes. */
  lemma TenTicksDownload(rs: seq<ResourceItem>, id: string, j: nat)
    requires UniqueIds(rs) && j < |rs| && rs[j].id == id
    ensures forall k :: 0 <= k <= 10 ==>
      (Ticks(Started(rs, id), id, k)[j].downloadStatus == Downloaded <==> k == 10)
    ensures forall k :: 0 <= k <= 10 ==> Ticks(Started(rs, id), id, k)[j].progress == 10 * k
    ensures forall k :: 0 <= k <= 10 ==>
      (TickEffectOf(Ticks(Started(rs, id), id, k), id) == Completed <==> k == 9)
  {
    forall k | 0 <= k <= 10
      ensures Ticks(Started(rs, id), id, k)[j].downloadStatus == Downloaded <==> k == 10
      ensures Ticks(Started(rs, id), id, k)[j].progress == 10 * k
      ensures TickEffectOf(Ticks(Started(rs, id), id, k), id) == Completed <==> k == 9
    {
      TicksFromStart(rs, id, j, k);
    }
  }

  /**
   * `loadUserProgress`'s merge: the catalog in its own order, each item taking
   * the stored status and progress when a record exists for its id.
   */
  function Merge(catalog: seq<ResourceItem>, records: map<string, ResourceProgress>): (r: seq<ResourceItem>)
    ensures SameIds(r, catalog)
    ensures forall i :: 0 <= i < |catalog| ==>
      r[i].(downloadStatus := catalog[i].downloadStatus, progress := catalog[i].progress) == catalog[i]
    ensures forall i :: 0 <= i < |catalog| && catalog[i].id in records ==>
      r[i].downloadStatus == records[catalog[i].id].downloadStatus
      && r[i].progress == records[catalog[i].id].progress
    ensures forall i :: 0 <= i < |catalog| && catalog[i].id !in records ==> r[i] == catalog[i]
  {
    if catalog == [] then []
    else
      var res := catalog[0];
      var item :=
        if res.id in records then res.(downloadStatus := records[res.id].downloadStatus, progress := records[res.id].progress)
        else res;
      [item] + Merge(catalog[1..], records)
  }

  predicate RecordsOk(records: map<string, ResourceProgress>)
  {
    forall r :: r in records ==> StatusProgressOk(records[r].downloadStatus, records[r].progress)
  }

  /** Merging consistent records onto a consistent catalog gives a consistent list. */
  lemma MergeKeepsItemsOk(catalog: seq<ResourceItem>, records: map<string, ResourceProgress>)
    requires AllItemsOk(catalog) && UniqueIds(catalog) && RecordsOk(records)
    ensures AllItemsOk(Merge(catalog, records)) && UniqueIds(Merge(catalog, records))
  {
    var m := Merge(catalog, records);
    forall i | 0 <= i < |m| ensures ItemOk(m[i]) {
      if catalog[i].id in records {
        assert StatusProgressOk(records[catalog[i].id].downloadStatus, records[catalog[i].id].progress);
      }
    }
  }

  /** Merging the same records again changes nothing. */
  lemma MergeIdempotent(catalog: seq<ResourceItem>, records: map<string, ResourceProgress>)
    ensures Merge(Merge(catalog, records), records) == Merge(catalog, records)
  {
    var once := Merge(catalog, records);
    var twice := Merge(once, records);
    forall i | 0 <= i < |once| ensures twice[i] == once[i] {
      if catalog[i].id in records {
        assert once[i].id == catalog[i].id;
      }
    }
  }

  /** The search test, on ASCII-lower-cased title, description and query. */
  function MatchesSearch(r: ResourceItem, query: string): (b: bool)
    ensures b <==>
      (Occurs(ToLowerAscii(r.title), ToLowerAscii(query)) || Occurs(ToLowerAscii(r.description), ToLowerAscii(query)))
  {
    var q := ToLowerAscii(query);
    IncludesIffOccurs(ToLowerAscii(r.title), q);
    IncludesIffOccurs(ToLowerAscii(r.description), q);
    Includes(ToLowerAscii(r.title), q) || Includes(ToLowerAscii(r.description), q)
  }

  /** Whether `filteredResources` keeps an item. */
  function Shown(r: ResourceItem, query: string, downloadedOnly: bool): (b: bool)
    ensures b ==> MatchesSearch(r, query)
    ensures !downloadedOnly ==> (b <==> MatchesSearch(r, query))
    ensures downloadedOnly ==> (b <==> MatchesSearch(r, query) && r.downloadStatus == Downloaded)
    ensures query == "" ==> (b <==> !downloadedOnly || r.downloadStatus == Downloaded)
  {
    assert query == "" ==> MatchesSearch(r, query) by {
      if query == "" {
        assert ToLowerAscii(query) == "";
        assert StartsWith(ToLowerAscii(r.title), "");
      }
    }
    MatchesSearch(r, query) && (downloadedOnly ==> r.downloadStatus == Downloaded)
  }

  /** `filteredResources`: the items shown, in the order of the list. */
  function Filtered(rs: seq<ResourceItem>, query: string, downloadedOnly: bool): (r: seq<ResourceItem>)
    ensures IsSublist(r, rs)
    ensures forall x :: x in r ==> Shown(x, query, downloadedOnly)
    ensures forall x :: multiset(r)[x] == if Shown(x, query, downloadedOnly) then multiset(rs)[x] else 0
  {
    if rs == [] then []
    else
      assert rs == [rs[0]] + rs[1..];
      if Shown(rs[0], query, downloadedOnly) then [rs[0]] + Filtered(rs[1..], query, downloadedOnly)
      else Filtered(rs[1..], query, downloadedOnly)
  }

  /** In downloaded-only mode every shown item is downloaded. */
  lemma DownloadedOnlyShowsDownloaded(rs: seq<ResourceItem>, query: string)
    ensures forall i :: 0 <= i < |Filtered(rs, query, true)| ==>
      Filtered(rs, query, true)[i].downloadStatus == Downloaded
  {
    var r := Filtered(rs, query, true);
    forall i | 0 <= i < |r| ensures r[i].downloadStatus == Downloaded {
      assert r[i] in r;
    }
  }

  /** The empty query in all-resources mode shows the whole list. */
  lemma {:induction false} EmptyQueryShowsAll(rs: seq<ResourceItem>)
    ensures Filtered(rs, "", false) == rs
  {
    if rs != [] {
      assert ToLowerAscii("") == "";
      assert StartsWith(ToLowerAscii(rs[0].title), "");
      EmptyQueryShowsAll(rs[1..]);
    }
  }
}
