/** The application shell (App.tsx): the record held in memory by one tab, its initial load
    from storage, the write-through on save, the cross-tab storage event and the admin flag. */
module AppState {
  import opened Wrappers
  import opened Stats
  import opened JsParseInt
  import opened Persistence
  import opened Admin

  /** The one storage key the application reads and writes. */
  const StorageKey: string := "school_stats_v3"

  /** The record shown when storage holds nothing usable; it is stamped with the time the
      application module was loaded. */
  function DefaultStats(bootTime: string): (r: StudentStats)
    ensures r.total == 140 && r.boys == 60 && r.girls == 80 && r.lastUpdated == bootTime
    ensures Consistent(r) && NonNegative(r)
  {
    StudentStats(140, 60, 80, bootTime)
  }

  /** The record a tab starts from, given what getItem returned for the storage key. It never
      fails: it is the stored record when the slot holds text that parses, and the default
      when the slot is missing, empty or unparsable. */
  function InitialStats(saved: Option<string>, codec: Codec, bootTime: string): (r: StudentStats)
    ensures r == DefaultStats(bootTime) || (saved.Some? && codec.parse(saved.value) == Some(r))
    ensures saved.Some? && saved.value != "" && codec.parse(saved.value).Some? ==>
              codec.parse(saved.value) == Some(r)
    ensures saved == None || saved == Some("") || codec.parse(saved.value) == None ==>
              r == DefaultStats(bootTime)
  {
    if saved.Some? && saved.value != "" then
      match codec.parse(saved.value)
      case Some(p) => p
      case None => DefaultStats(bootTime)
    else
      DefaultStats(bootTime)
  }

  /** What a storage event does to the tab's record. */
  datatype StorageEffect =
    | Ignored                         // another key, a removal, or an empty value
    | Applied(record: StudentStats)   // the event's record replaces the tab's record
    | Threw                           // JSON.parse threw inside the handler

  /** The storage-event handler's decision. It has no parse fallback and never looks at the
      tab's current record: a matching record is applied whatever its timestamp. */
  function StorageEventEffect(key: Option<string>, newValue: Option<string>, codec: Codec): (e: StorageEffect)
    ensures e.Ignored? <==> key != Some(StorageKey) || newValue == None || newValue == Some("")
    ensures e.Applied? ==> newValue.Some? && codec.parse(newValue.value) == Some(e.record)
    ensures e.Threw? <==> !e.Ignored? && codec.parse(newValue.value) == None
  {
    if key == Some(StorageKey) && newValue.Some? && newValue.value != "" then
      match codec.parse(newValue.value)
      case Some(p) => Applied(p)
      case None => Threw
    else
      Ignored
  }

  /** URLSearchParams.get: the value of the first parameter with the given name. */
  function QueryGet(params: seq<(string, string)>, name: string): (v: Option<string>)
    ensures v.None? <==> forall i :: 0 <= i < |params| ==> params[i].0 != name
    ensures v.Some? ==> exists i :: 0 <= i < |params| && params[i] == (name, v.value)
                                   && forall j :: 0 <= j < i ==> params[j].0 != name
  {
    if params == [] then None
    else if params[0].0 == name then Some(params[0].1)
    else
      var v := QueryGet(params[1..], name);
      if v.Some? then
        ghost var i :| 0 <= i < |params| - 1 && params[1..][i] == (name, v.value)
                       && forall j :: 0 <= j < i ==> params[1..][j].0 != name;
        assert params[i + 1] == (name, v.value);
        v
      else v
  }

  /** Admin mode: params.get('admin') === 'true'. */
  function IsAdmin(params: seq<(string, string)>): (b: bool) {
    QueryGet(params, "admin") == Some("true")
  }

  /** Admin mode is on exactly when the first "admin" parameter of the query string has the
      value "true", compared case-sensitively. */
  lemma IsAdminIff(params: seq<(string, string)>)
    ensures IsAdmin(params) <==> exists i :: 0 <= i < |params| && params[i] == ("admin", "true")
                                            && forall j :: 0 <= j < i ==> params[j].0 != "admin"
  {
  }

  /** Reading the slot back after a save gives the saved record, whatever else the store holds. */
  lemma ReloadAfterUpdate(items: map<string, string>, codec: Codec, r: StudentStats, bootTime: string)
    requires Lawful(codec)
    ensures InitialStats(Lookup(items[StorageKey := codec.serialize(r)], StorageKey), codec, bootTime) == r
  {
  }

  /** Only the storage key matters to the initial load. */
  lemma InitialStatsIgnoresOtherKeys(items: map<string, string>, key: string, value: string, codec: Codec, bootTime: string)
    requires key != StorageKey
    ensures InitialStats(Lookup(items[key := value], StorageKey), codec, bootTime)
            == InitialStats(Lookup(items, StorageKey), codec, bootTime)
  {
  }

  /** A record saved in one tab reaches another tab's storage event intact, and replaces
      that tab's record whatever the two timestamps are. */
  lemma StorageEventDeliversSavedRecord(codec: Codec, r: StudentStats)
    requires Lawful(codec)
    ensures StorageEventEffect(Some(StorageKey), Some(codec.serialize(r)), codec) == Applied(r)
  {
  }

  /** Malformed text in the slot is survived by the initial load but not by the storage event. */
  lemma MalformedSlotTreatment(codec: Codec, text: string, bootTime: string)
    requires text != "" && codec.parse(text) == None
    ensures InitialStats(Some(text), codec, bootTime) == DefaultStats(bootTime)
    ensures StorageEventEffect(Some(StorageKey), Some(text), codec) == Threw
  {
  }

  /** The admin flag is case-sensitive, takes the first "admin" parameter, and needs exactly "true". */
  lemma IsAdminExamples()
    ensures IsAdmin([("admin", "true")]) && IsAdmin([("view", "x"), ("admin", "true")])
    ensures !IsAdmin([]) && !IsAdmin([("admin", "True")]) && !IsAdmin([("admin", "1")])
    ensures !IsAdmin([("admin", "false"), ("admin", "true")])
  {
  }

  /** One tab of the application. */
  class App {
    var stats: StudentStats
    var isAdmin: bool
    const store: Storage
    const codec: Codec

    /** Mounting: the record comes from the store, with the default as fallback. */
    constructor (store: Storage, codec: Codec, bootTime: string)
      ensures this.store == store && this.codec == codec
      ensures stats == InitialStats(Lookup(store.items, StorageKey), codec, bootTime)
      ensures !isAdmin
    {
      this.store := store;
      this.codec := codec;
      var saved := store.GetItem(StorageKey);
      stats := InitialStats(saved, codec, bootTime);
      isAdmin := false;
    }

    /** The mount effect: the admin flag is read from the query string. */
    method ReadAdminFlag(params: seq<(string, string)>)
      modifies this
      ensures isAdmin == IsAdmin(params) && stats == old(stats)
    {
      var admin := QueryGet(params, "admin");
      isAdmin := admin == Some("true");
    }

    /** The storage-event handler: a matching event's record replaces the tab's record
        unconditionally; any other event, or one whose text does not parse, leaves it alone. */
    method HandleStorage(key: Option<string>, newValue: Option<string>) returns (effect: StorageEffect)
      modifies this
      ensures effect == StorageEventEffect(key, newValue, codec)
      ensures stats == (if effect.Applied? then effect.record else old(stats))
      ensures isAdmin == old(isAdmin)
    {
      effect := StorageEventEffect(key, newValue, codec);
      if effect.Applied? {
        stats := effect.record;
      }
    }

    /** onSave: the record becomes the tab's record and is written to the storage key;
        no other key changes. */
    method HandleUpdateStats(newStats: StudentStats)
      modifies this, store
      ensures stats == newStats && isAdmin == old(isAdmin)
      ensures store.items == old(store.items)[StorageKey := codec.serialize(newStats)]
    {
      stats := newStats;
      store.SetItem(StorageKey, codec.serialize(newStats));
    }

    /** The admin form wired to this tab, which shows it only in admin mode: its submit hands
        the record to HandleUpdateStats. */
    method SubmitFromPanel(panel: AdminPanel, now: string) returns (saved: Option<StudentStats>)
      requires isAdmin
      modifies this, store, panel
      ensures isAdmin == old(isAdmin)
      ensures panel.boys == old(panel.boys) && panel.girls == old(panel.girls)
      ensures saved.Some? ==> stats == saved.value
                              && store.items == old(store.items)[StorageKey := codec.serialize(saved.value)]
      ensures saved.None? ==> stats == old(stats) && store.items == old(store.items)
      ensures old(panel.isSaved) ==> saved == None && panel.isSaved && panel.error == old(panel.error)
      ensures !old(panel.isSaved) && (old(panel.boys) < 0 || old(panel.girls) < 0) ==>
                saved == None && panel.error == Some(NegativeValuesMessage) && !panel.isSaved
      ensures !old(panel.isSaved) && old(panel.boys) >= 0 && old(panel.girls) >= 0 ==>
                saved == Some(StudentStats(old(panel.boys) + old(panel.girls), old(panel.boys), old(panel.girls), now))
                && panel.error == None && panel.isSaved
    {
      saved := panel.Submit(now);
      if saved.Some? {
        HandleUpdateStats(saved.value);
      }
    }
  }

  /** Two tabs over one store: a save in the first reaches the second through the storage
      event, and a tab opened afterwards loads the saved record. */
  method TwoTabs(codec: Codec, bootTime: string, r: StudentStats) returns (other: StudentStats, reloaded: StudentStats)
    requires Lawful(codec)
    ensures other == r && reloaded == r
  {
    var store := new Storage(map[]);
    var first := new App(store, codec, bootTime);
    var second := new App(store, codec, bootTime);
    first.HandleUpdateStats(r);
    var newValue := store.GetItem(StorageKey);
    StorageEventDeliversSavedRecord(codec, r);
    var _ := second.HandleStorage(Some(StorageKey), newValue);
    other := second.stats;
    var third := new App(store, codec, bootTime);
    ReloadAfterUpdate(map[], codec, r, bootTime);
    reloaded := third.stats;
  }

  /** An empty store shows the default record; typing 70 into the boys field and saving
      publishes a record with total 150. */
  method EditFromDefault(codec: Codec, bootTime: string, now: string) returns (initial: StudentStats, published: StudentStats)
    ensures initial == DefaultStats(bootTime)
    ensures published == StudentStats(150, 70, 80, now)
  {
    var store := new Storage(map[]);
    var app := new App(store, codec, bootTime);
    app.ReadAdminFlag([("admin", "true")]);
    initial := app.stats;
    var panel := new AdminPanel(app.stats);
    FieldValueOfNumeral(70);
    assert DecimalString(70) == "70";
    panel.HandleChange("boys", "70");
    var saved := app.SubmitFromPanel(panel, now);
    published := app.stats;
  }
}
