/** utils/storage.js: the download history and the settings, as
    transformations of the value kept in extension storage. Reading storage
    becomes a parameter (`stored`, `None` when the key is absent) and writing
    it becomes the result.

    History entries and settings are plain JavaScript objects; they are maps
    from property names to values, and a missing property is `undefined`. */
module Storage {
  import opened Wrappers
  import opened JsText

  datatype Value = Str(s: string) | Num(n: int) | Bool(b: bool) | Null

  type Obj = map<string, Value>

  /** Reading property `key`; `None` is `undefined`. */
  function Get(o: Obj, key: string): Option<Value> {
    if key in o then Some(o[key]) else None
  }

  /** JavaScript truthiness of a property read. */
  predicate Truthy(v: Option<Value>) {
    match v
    case None => false
    case Some(Null) => false
    case Some(Num(n)) => n != 0
    case Some(Str(s)) => s != ""
    case Some(Bool(b)) => b
  }

  /** `h.galleryId`. */
  function GalleryId(h: Obj): Option<Value> {
    Get(h, "galleryId")
  }

  const MaxHistoryItems := 100

  /** `(count || 1) + 1`: a falsy count reads as 1; a string count is
      concatenated with "1", and `true + 1` is 2. */
  function BumpCount(count: Option<Value>): (v: Value)
    ensures !Truthy(count) ==> v == Num(2)
    ensures count.Some? && count.value.Num? && count.value.n != 0 ==> v == Num(count.value.n + 1)
    ensures count.Some? && count.value.Str? && count.value.s != "" ==> v == Str(count.value.s + "1")
    ensures count == Some(Bool(true)) ==> v == Num(2)
  {
    if !Truthy(count) then Num(2)
    else
      match count.value
      case Num(n) => Num(n + 1)
      case Str(s) => Str(s + "1")
      case Bool(_) => Num(2)
      case Null => Num(2)
  }

  /** `{ ...entry, ...record, downloadedAt: now, downloadCount: (entry.downloadCount || 1) + 1 }` */
  function Merged(entry: Obj, record: Obj, now: int): Obj {
    entry + record + map["downloadedAt" := Num(now), "downloadCount" := BumpCount(Get(entry, "downloadCount"))]
  }

  /** `{ ...record, downloadedAt: now, downloadCount: 1 }` */
  function NewEntry(record: Obj, now: int): Obj {
    record + map["downloadedAt" := Num(now), "downloadCount" := Num(1)]
  }

  /** `e` is what `findIndex(h => h.galleryId === gid)` returns. */
  predicate FirstMatch(history: seq<Obj>, gid: Option<Value>, e: int) {
    0 <= e < |history| && GalleryId(history[e]) == gid
    && forall j :: 0 <= j < e ==> GalleryId(history[j]) != gid
  }

  predicate NoMatch(history: seq<Obj>, gid: Option<Value>) {
    forall j :: 0 <= j < |history| ==> GalleryId(history[j]) != gid
  }

  /** No two entries share a galleryId. */
  predicate DistinctIds(history: seq<Obj>) {
    forall i, j :: 0 <= i < j < |history| ==> GalleryId(history[i]) != GalleryId(history[j])
  }

  /** The merged entry keeps the galleryId it was found by. */
  lemma MergedKeepsId(entry: Obj, record: Obj, now: int)
    requires GalleryId(entry) == GalleryId(record)
    ensures GalleryId(Merged(entry, record, now)) == GalleryId(record)
  {
  }

  /** `addHistoryRecord(record)`: the stored history with `record` upserted
      (merged in place into the first entry with its galleryId, or put in
      front as a new entry) and cut to the first 100 entries. */
  method AddHistoryRecord(stored: Option<seq<Obj>>, record: Obj, now: int) returns (saved: seq<Obj>)
    ensures |saved| <= MaxHistoryItems
    ensures var h := stored.GetOr([]);
            NoMatch(h, GalleryId(record)) ==> saved == Truncate([NewEntry(record, now)] + h, MaxHistoryItems)
    ensures var h := stored.GetOr([]);
            forall e :: FirstMatch(h, GalleryId(record), e) ==>
              saved == Truncate(h[e := Merged(h[e], record, now)], MaxHistoryItems)
    ensures var h := stored.GetOr([]);
            |h| <= MaxHistoryItems ==> exists k :: 0 <= k < |saved| && GalleryId(saved[k]) == GalleryId(record)
    ensures DistinctIds(stored.GetOr([])) ==> DistinctIds(saved)
  {
    var history := stored.GetOr([]);
    var gid := GalleryId(record);
    var i := 0;
    while i < |history| && GalleryId(history[i]) != gid
      invariant 0 <= i <= |history|
      invariant forall j :: 0 <= j < i ==> GalleryId(history[j]) != gid
    {
      i := i + 1;
    }
    ghost var h := history;
    if i < |history| {
      assert FirstMatch(h, gid, i);
      MergedKeepsId(history[i], record, now);
      history := history[i := Merged(history[i], record, now)];
      assert GalleryId(history[i]) == gid;
      assert forall e :: FirstMatch(h, gid, e) ==> e == i;
      assert DistinctIds(h) ==> DistinctIds(history) by {
        if DistinctIds(h) {
          forall a, b | 0 <= a < b < |history|
            ensures GalleryId(history[a]) != GalleryId(history[b])
          {
            assert GalleryId(history[a]) == GalleryId(h[a]) && GalleryId(history[b]) == GalleryId(h[b]);
          }
        }
      }
    } else {
      assert NoMatch(h, gid);
      history := [NewEntry(record, now)] + history;
      assert GalleryId(history[0]) == gid;
      assert DistinctIds(h) ==> DistinctIds(history) by {
        if DistinctIds(h) {
          forall a, b | 0 <= a < b < |history|
            ensures GalleryId(history[a]) != GalleryId(history[b])
          {
            assert history[b] == h[b - 1];
            if a > 0 { assert history[a] == h[a - 1]; }
          }
        }
      }
    }
    saved := Truncate(history, MaxHistoryItems);
    assert |h| <= MaxHistoryItems ==> GalleryId(saved[if i < |h| then i else 0]) == gid;
  }

  /** `isDownloaded(galleryId)`: `history.some(h => h.galleryId === galleryId)`. */
  function IsDownloaded(history: seq<Obj>, galleryId: Value): (r: bool)
    ensures r <==> exists i :: 0 <= i < |history| && GalleryId(history[i]) == Some(galleryId)
  {
    if history == [] then false
    else if GalleryId(history[0]) == Some(galleryId) then true
    else
      var rest := IsDownloaded(history[1..], galleryId);
      assert rest ==> exists i :: 0 <= i < |history| && GalleryId(history[i]) == Some(galleryId) by {
        if rest {
          var i :| 0 <= i < |history[1..]| && GalleryId(history[1..][i]) == Some(galleryId);
          assert GalleryId(history[i + 1]) == Some(galleryId);
        }
      }
      assert !rest ==> forall i :: 0 <= i < |history| ==> GalleryId(history[i]) != Some(galleryId) by {
        if !rest {
          forall i | 0 <= i < |history|
            ensures GalleryId(history[i]) != Some(galleryId)
          {
            if i > 0 { assert history[i] == history[1..][i - 1]; }
          }
        }
      }
      rest
  }

  /** `new Set(history.map(h => h.galleryId))`. */
  function HistoryIdSet(history: seq<Obj>): (r: set<Option<Value>>)
    ensures forall v :: v in r <==> exists i :: 0 <= i < |history| && GalleryId(history[i]) == v
  {
    if history == [] then {}
    else
      var rest := HistoryIdSet(history[1..]);
      assert forall v :: v in rest ==> exists i :: 0 <= i < |history| && GalleryId(history[i]) == v by {
        forall v | v in rest
          ensures exists i :: 0 <= i < |history| && GalleryId(history[i]) == v
        {
          var i :| 0 <= i < |history[1..]| && GalleryId(history[1..][i]) == v;
          assert GalleryId(history[i + 1]) == v;
        }
      }
      assert forall i :: 0 < i < |history| ==> GalleryId(history[i]) in rest by {
        forall i | 0 < i < |history|
          ensures GalleryId(history[i]) in rest
        {
          assert history[i] == history[1..][i - 1];
        }
      }
      {GalleryId(history[0])} + rest
  }

  /** `getDownloadedIds(galleryIds)`: exactly the given ids that `isDownloaded`
      reports. */
  function GetDownloadedIds(history: seq<Obj>, galleryIds: seq<Value>): (r: set<Value>)
    ensures forall id :: id in r <==> id in galleryIds && IsDownloaded(history, id)
  {
    var downloaded := HistoryIdSet(history);
    set id | id in galleryIds && Some(id) in downloaded
  }

  /** `removeHistoryRecord(galleryId)`: `history.filter(h => h.galleryId !== galleryId)`. */
  function RemoveHistoryRecord(history: seq<Obj>, galleryId: Value): (r: seq<Obj>)
    ensures |r| <= |history|
    ensures !IsDownloaded(r, galleryId)
    ensures forall h :: h in r ==> h in history
    ensures forall i :: 0 <= i < |history| && GalleryId(history[i]) != Some(galleryId) ==> history[i] in r
  {
    if history == [] then []
    else
      var rest := RemoveHistoryRecord(history[1..], galleryId);
      assert forall i :: 0 < i < |history| && GalleryId(history[i]) != Some(galleryId) ==> history[i] in rest by {
        forall i | 0 < i < |history| && GalleryId(history[i]) != Some(galleryId)
          ensures history[i] in rest
        {
          assert history[i] == history[1..][i - 1];
        }
      }
      if GalleryId(history[0]) == Some(galleryId) then rest else [history[0]] + rest
  }

  /** The filter keeps the surviving entries in their original order. */
  lemma {:induction false} RemoveHistoryRecordKeepsOrder(a: seq<Obj>, b: seq<Obj>, galleryId: Value)
    ensures RemoveHistoryRecord(a + b, galleryId) == RemoveHistoryRecord(a, galleryId) + RemoveHistoryRecord(b, galleryId)
  {
    if a == [] {
      assert a + b == b;
    } else {
      assert (a + b)[0] == a[0] && (a + b)[1..] == a[1..] + b;
      RemoveHistoryRecordKeepsOrder(a[1..], b, galleryId);
    }
  }

  /** A history without that galleryId is left exactly as it was. */
  lemma {:induction false} RemoveAbsentIsIdentity(history: seq<Obj>, galleryId: Value)
    requires !IsDownloaded(history, galleryId)
    ensures RemoveHistoryRecord(history, galleryId) == history
  {
    if history != [] {
      assert GalleryId(history[0]) != Some(galleryId);
      assert !IsDownloaded(history[1..], galleryId) by {
        forall i | 0 <= i < |history[1..]|
          ensures GalleryId(history[1..][i]) != Some(galleryId)
        {
          assert history[1..][i] == history[i + 1];
        }
      }
      RemoveAbsentIsIdentity(history[1..], galleryId);
    }
  }

  // ==================== settings ====================

  /** `DEFAULT_SETTINGS`. */
  function DefaultSettings(): Obj {
    map[
      "concurrentDownloads" := Num(5),
      "imageQuality" := Num(90),
      "outputFormat" := Str("jpg"),
      "filenameTemplate" := Str("{title}"),
      "createSubfolders" := Bool(true),
      "showNotifications" := Bool(true)
    ]
  }

  /** `getSettings()`: `{ ...DEFAULT_SETTINGS, ...stored }`. */
  function GetSettings(stored: Option<Obj>): (r: Obj)
    ensures r.Keys == DefaultSettings().Keys + stored.GetOr(map[]).Keys
    ensures forall k :: k in stored.GetOr(map[]) ==> r[k] == stored.GetOr(map[])[k]
    ensures forall k :: k in DefaultSettings() && k !in stored.GetOr(map[]) ==> r[k] == DefaultSettings()[k]
  {
    DefaultSettings() + stored.GetOr(map[])
  }

  /** `saveSettings(settings)`: the value written back, the current settings
      overridden by the given ones. */
  function SaveSettings(stored: Option<Obj>, settings: Obj): (r: Obj)
    ensures forall k :: k in settings ==> k in r && r[k] == settings[k]
    ensures forall k :: k !in settings ==> (k in r <==> k in GetSettings(stored))
    ensures forall k :: k !in settings && k in r ==> r[k] == GetSettings(stored)[k]
  {
    GetSettings(stored) + settings
  }

  /** `resetSettings()`: the value written back holds exactly the default
      keys, and reads like settings that were never saved. */
  function ResetSettings(): (r: Obj)
    ensures r.Keys == DefaultSettings().Keys
    ensures GetSettings(Some(r)) == GetSettings(None)
  {
    DefaultSettings()
  }

  /** `getDefaultSettings()`: a copy of the defaults, equal to them key by key. */
  function GetDefaultSettings(): (r: Obj)
    ensures r == DefaultSettings()
    ensures r == GetSettings(None)
  {
    map k | k in DefaultSettings() :: DefaultSettings()[k]
  }

  /** Reading the settings back right after a save gives what was saved. */
  lemma SavedSettingsReadBack(stored: Option<Obj>, settings: Obj)
    ensures GetSettings(Some(SaveSettings(stored, settings))) == SaveSettings(stored, settings)
  {
    var saved := SaveSettings(stored, settings);
    assert DefaultSettings().Keys <= saved.Keys;
  }

  /** Saving the same settings twice is the same as saving them once. */
  lemma SaveSettingsIdempotent(stored: Option<Obj>, settings: Obj)
    ensures SaveSettings(Some(SaveSettings(stored, settings)), settings) == SaveSettings(stored, settings)
  {
    SavedSettingsReadBack(stored, settings);
  }

  /** After a reset, and before anything was stored, reading gives the defaults. */
  lemma ResetReadsDefaults()
    ensures GetSettings(Some(ResetSettings())) == GetDefaultSettings()
    ensures GetSettings(None) == GetDefaultSettings()
  {
  }
}
