/**
 * The SQLite-backed bookmark store of `src/services/database.ts`: a handle
 * that is opened by `initDatabase` and released by `closeDatabase`, the
 * `links` table, the AUTOINCREMENT counter behind its ids, the clock that
 * `CURRENT_TIMESTAMP` reads, and the `settings` table as a key/value map.
 */
module Database {
  import opened Wrappers
  import opened Records
  import opened Seqs
  import opened LinkTable

  datatype DbError =
    | UniqueViolation   // `UNIQUE constraint failed: links.url`
    | StoreClosed       // a statement prepared on the null handle

  /** The settings seeded on every start. */
  const DefaultSettings: seq<(string, string)> := [
    ("global_shortcut", "Command+Shift+L"),
    ("theme", "dark"),
    ("window_width", "600"),
    ("window_height", "400")
  ]

  /** `INSERT OR IGNORE INTO settings (key, value)` for each entry, in order. */
  function Seeded(m: map<string, string>, entries: seq<(string, string)>): map<string, string>
  {
    if entries == [] then m
    else
      var before := Seeded(m, entries[..|entries| - 1]);
      var (k, v) := entries[|entries| - 1];
      if k in before then before else before[k := v]
  }

  /** Seeding never overwrites an existing value and adds every seeded key. */
  lemma {:induction false} SeededKeys(m: map<string, string>, entries: seq<(string, string)>)
    ensures forall k :: k in m ==> k in Seeded(m, entries) && Seeded(m, entries)[k] == m[k]
    ensures forall i :: 0 <= i < |entries| ==> entries[i].0 in Seeded(m, entries)
    ensures forall k :: k in Seeded(m, entries) ==> k in m || exists i :: 0 <= i < |entries| && entries[i].0 == k
  {
    if entries != [] {
      var init := entries[..|entries| - 1];
      SeededKeys(m, init);
      forall k | k in Seeded(m, entries) && k !in m
        ensures exists i :: 0 <= i < |entries| && entries[i].0 == k
      {
        if k !in Seeded(m, init) {
          assert entries[|entries| - 1].0 == k;
        } else {
          var i :| 0 <= i < |init| && init[i].0 == k;
          assert entries[i].0 == k;
        }
      }
      forall i | 0 <= i < |entries| ensures entries[i].0 in Seeded(m, entries) {
        if i < |entries| - 1 {
          assert init[i] == entries[i];
        }
      }
    }
  }

  /** Seeding a map that already holds every seeded key changes nothing. */
  lemma {:induction false} SeededNoop(m: map<string, string>, entries: seq<(string, string)>)
    requires forall i :: 0 <= i < |entries| ==> entries[i].0 in m
    ensures Seeded(m, entries) == m
  {
    if entries != [] {
      var init := entries[..|entries| - 1];
      assert forall i :: 0 <= i < |init| ==> init[i] == entries[i];
      SeededNoop(m, init);
    }
  }

  /** Re-seeding is idempotent: a second start leaves the settings as the first left them. */
  lemma SeedingIdempotent(m: map<string, string>)
    ensures Seeded(Seeded(m, DefaultSettings), DefaultSettings) == Seeded(m, DefaultSettings)
  {
    SeededKeys(m, DefaultSettings);
    SeededNoop(Seeded(m, DefaultSettings), DefaultSettings);
  }

  class Store {
    /** The module-level `db` handle is non-null. */
    var isOpen: bool
    /** The rows of `links`, in storage order. */
    var rows: seq<Link>
    /** The id AUTOINCREMENT hands out next; never reused after a delete. */
    var nextId: int
    /** The current `CURRENT_TIMESTAMP`. */
    var clock: Time
    /** `settings` rows as key to value. */
    var settings: map<string, string>

    predicate Valid()
      reads this
    {
      && nextId >= 1
      && (forall i :: 0 <= i < |rows| ==>
            1 <= rows[i].id < nextId && rows[i].createdAt <= clock && rows[i].updatedAt <= clock)
      && IdsUnique(rows)
      && UrlsUnique(rows)
    }

    /** A database file that has never been opened. */
    constructor ()
      ensures Valid()
      ensures !isOpen && rows == [] && nextId == 1 && clock == 0 && settings == map[]
    {
      isOpen := false;
      rows := [];
      nextId := 1;
      clock := 0;
      settings := map[];
    }

    /** Wall-clock time passing between statements. */
    method AdvanceClock()
      requires Valid()
      modifies this
      ensures Valid()
      ensures clock == old(clock) + 1
      ensures isOpen == old(isOpen) && rows == old(rows) && nextId == old(nextId) && settings == old(settings)
    {
      clock := clock + 1;
    }

    /**
     * `initDatabase`: open the handle; `CREATE TABLE IF NOT EXISTS` keeps existing rows;
     * then seed the default settings.
     */
    method InitDatabase()
      requires Valid()
      modifies this
      ensures Valid()
      ensures isOpen
      ensures rows == old(rows) && nextId == old(nextId) && clock == old(clock)
      ensures settings == Seeded(old(settings), DefaultSettings)
    {
      isOpen := true;
      InsertDefaultSettings();
    }

    /** `insertDefaultSettings`: insert-if-absent for each default entry. */
    method InsertDefaultSettings()
      requires Valid() && isOpen
      modifies this
      ensures Valid()
      ensures isOpen == old(isOpen) && rows == old(rows) && nextId == old(nextId) && clock == old(clock)
      ensures settings == Seeded(old(settings), DefaultSettings)
    {
      var i := 0;
      while i < |DefaultSettings|
        invariant 0 <= i <= |DefaultSettings|
        invariant settings == Seeded(old(settings), DefaultSettings[..i])
        invariant isOpen == old(isOpen) && rows == old(rows) && nextId == old(nextId) && clock == old(clock)
      {
        assert DefaultSettings[..i + 1][..i] == DefaultSettings[..i];
        var (key, value) := DefaultSettings[i];
        if key !in settings {
          settings := settings[key := value];
        }
        i := i + 1;
      }
      assert DefaultSettings[..i] == DefaultSettings;
    }

    /** `getAllLinks`: every row exactly once, most visited first, newest first among equals. */
    method GetAllLinks() returns (r: Result<seq<Link>, DbError>)
      requires Valid()
      ensures !isOpen ==> r == Failure(StoreClosed)
      ensures isOpen ==> r.Success? && RankOrdered(r.value) && multiset(r.value) == multiset(rows)
    {
      if !isOpen {
        return Failure(StoreClosed);
      }
      r := Success(SortByRank(rows));
    }

    /**
     * `searchLinks`: the rows matching the LIKE clauses, each once, in the
     * order of `getAllLinks`. The tag clause is added only for a non-empty tag.
     */
    method SearchLinks(query: string, tag: Option<string>) returns (r: Result<seq<Link>, DbError>)
      requires Valid()
      ensures !isOpen ==> r == Failure(StoreClosed)
      ensures isOpen ==> r.Success? && RankOrdered(r.value)
      ensures isOpen ==> multiset(r.value) == multiset(MatchingRows(rows, query, tag))
      ensures isOpen ==> forall i :: 0 <= i < |r.value| ==> r.value[i] in rows && RowMatches(r.value[i], query, tag)
      ensures isOpen ==> forall i :: 0 <= i < |rows| && RowMatches(rows[i], query, tag) ==> rows[i] in r.value
    {
      if !isOpen {
        return Failure(StoreClosed);
      }
      var sorted := SortByRank(rows);
      var found := MatchingRows(sorted, query, tag);
      FilterKeepsRankOrder(sorted, (l: Link) => RowMatches(l, query, tag));
      FilterOfPermutation(sorted, rows, (l: Link) => RowMatches(l, query, tag));
      forall i | 0 <= i < |found| ensures found[i] in rows {
        assert found[i] in multiset(sorted);
      }
      forall i | 0 <= i < |rows| && RowMatches(rows[i], query, tag) ensures rows[i] in found {
        assert rows[i] in multiset(sorted);
      }
      r := Success(found);
    }

    /**
     * `createLink`: a url already stored violates UNIQUE and nothing changes;
     * otherwise one row is appended with the next id, no visits, and NULL for
     * an absent or empty favicon or tags. The returned record echoes the inputs.
     */
    method CreateLink(title: string, url: string, favicon: Option<string>, tags: Option<string>)
      returns (r: Result<Link, DbError>)
      requires Valid()
      modifies this
      ensures Valid()
      ensures !old(isOpen) ==> r == Failure(StoreClosed) && unchanged(this)
      ensures old(isOpen) && HasUrl(old(rows), url) ==> r == Failure(UniqueViolation) && unchanged(this)
      ensures old(isOpen) && !HasUrl(old(rows), url) ==>
        && r == Success(Link(old(nextId), title, url, favicon, tags, 0, old(clock), old(clock)))
        && rows == old(rows) + [Link(old(nextId), title, url, NullIfEmpty(favicon), NullIfEmpty(tags), 0, old(clock), old(clock))]
        && nextId == old(nextId) + 1
        && isOpen && clock == old(clock) && settings == old(settings)
      ensures old(isOpen) ==> |RowsWithUrl(rows, url)| == 1
    {
      if !isOpen {
        return Failure(StoreClosed);
      }
      if HasUrl(rows, url) {
        OneRowPerUrl(rows, url);
        return Failure(UniqueViolation);
      }
      var stored := Link(nextId, title, url, NullIfEmpty(favicon), NullIfEmpty(tags), 0, clock, clock);
      rows := rows + [stored];
      r := Success(Link(nextId, title, url, favicon, tags, 0, clock, clock));
      nextId := nextId + 1;
      assert rows[|rows| - 1].url == url;
      OneRowPerUrl(rows, url);
    }

    /**
     * `updateLink`: rewrites title, url and tags (NULL when empty) of the row
     * with that id. An unknown id affects no row; a url held by another row
     * violates UNIQUE and nothing changes.
     */
    method UpdateLink(id: int, title: string, url: string, tags: Option<string>) returns (r: Result<(), DbError>)
      requires Valid()
      modifies this
      ensures Valid()
      ensures !old(isOpen) ==> r == Failure(StoreClosed) && unchanged(this)
      ensures old(isOpen) && Lookup(old(rows), id).None? ==> r == Success(()) && unchanged(this)
      ensures old(isOpen) && Lookup(old(rows), id).Some? && UrlTakenByOther(old(rows), id, url) ==>
        r == Failure(UniqueViolation) && unchanged(this)
      ensures old(isOpen) && Lookup(old(rows), id).Some? && !UrlTakenByOther(old(rows), id, url) ==>
        && r == Success(())
        && rows == WithEdit(old(rows), id, title, url, NullIfEmpty(tags), old(clock))
        && isOpen && nextId == old(nextId) && clock == old(clock) && settings == old(settings)
    {
      if !isOpen {
        return Failure(StoreClosed);
      }
      if Lookup(rows, id).None? {
        return Success(());
      }
      if UrlTakenByOther(rows, id, url) {
        return Failure(UniqueViolation);
      }
      WithEditKeepsUnique(rows, id, title, url, NullIfEmpty(tags), clock);
      rows := WithEdit(rows, id, title, url, NullIfEmpty(tags), clock);
      r := Success(());
    }

    /** `incrementVisitCount`: one more visit on that row; an unknown id changes nothing. */
    method IncrementVisitCount(id: int) returns (r: Result<(), DbError>)
      requires Valid()
      modifies this
      ensures Valid()
      ensures !old(isOpen) ==> r == Failure(StoreClosed) && unchanged(this)
      ensures old(isOpen) ==>
        && r == Success(())
        && rows == WithVisit(old(rows), id, old(clock))
        && isOpen && nextId == old(nextId) && clock == old(clock) && settings == old(settings)
    {
      if !isOpen {
        return Failure(StoreClosed);
      }
      rows := WithVisit(rows, id, clock);
      r := Success(());
    }

    /** `deleteLink`: drops the row with that id; an unknown id changes nothing. */
    method DeleteLink(id: int) returns (r: Result<(), DbError>)
      requires Valid()
      modifies this
      ensures Valid()
      ensures !old(isOpen) ==> r == Failure(StoreClosed) && unchanged(this)
      ensures old(isOpen) ==>
        && r == Success(())
        && rows == WithoutId(old(rows), id)
        && isOpen && nextId == old(nextId) && clock == old(clock) && settings == old(settings)
    {
      if !isOpen {
        return Failure(StoreClosed);
      }
      FilterKeepsUnique(rows, (l: Link) => l.id != id);
      rows := WithoutId(rows, id);
      r := Success(());
    }

    /** `getSettings`: every settings row copied into a key/value record. */
    method GetSettings() returns (r: Result<map<string, string>, DbError>)
      requires Valid()
      ensures !isOpen ==> r == Failure(StoreClosed)
      ensures isOpen ==> r == Success(settings)
    {
      if !isOpen {
        return Failure(StoreClosed);
      }
      var result: map<string, string> := map[];
      var remaining := settings.Keys;
      while remaining != {}
        invariant remaining <= settings.Keys
        invariant result.Keys == settings.Keys - remaining
        invariant forall k :: k in result ==> result[k] == settings[k]
        decreases |remaining|
      {
        var k :| k in remaining;
        result := result[k := settings[k]];
        remaining := remaining - {k};
      }
      assert result == settings;
      r := Success(result);
    }

    /** `updateSetting`: overwrites an existing key; a key that is not stored is never created. */
    method UpdateSetting(key: string, value: string) returns (r: Result<(), DbError>)
      requires Valid()
      modifies this
      ensures Valid()
      ensures !old(isOpen) ==> r == Failure(StoreClosed) && unchanged(this)
      ensures old(isOpen) ==>
        && r == Success(())
        && settings.Keys == old(settings).Keys
        && settings == (if key in old(settings) then old(settings)[key := value] else old(settings))
        && isOpen && rows == old(rows) && nextId == old(nextId) && clock == old(clock)
    {
      if !isOpen {
        return Failure(StoreClosed);
      }
      if key in settings {
        settings := settings[key := value];
      }
      r := Success(());
    }

    /** `closeDatabase`: releases the handle; closing a closed store does nothing. The data stays on disk. */
    method CloseDatabase()
      requires Valid()
      modifies this
      ensures Valid()
      ensures !isOpen
      ensures rows == old(rows) && nextId == old(nextId) && clock == old(clock) && settings == old(settings)
    {
      if isOpen {
        isOpen := false;
      }
    }
  }

  /**
   * The scenario of creating a link, visiting it three times and deleting it:
   * with the clock moved on before the visits, the listing shows the one row
   * with three visits and an `updated_at` later than its `created_at`, then nothing.
   */
  method CreateVisitDeleteScenario() returns (store: Store)
    ensures fresh(store) && store.Valid() && store.rows == []
  {
    store := new Store();
    store.InitDatabase();
    var created := store.CreateLink("GitHub", "https://github.com", None, None);
    assert created.Success?;
    var id := created.value.id;
    store.AdvanceClock();
    var _ := store.IncrementVisitCount(id);
    var _ := store.IncrementVisitCount(id);
    var _ := store.IncrementVisitCount(id);
    var all := store.GetAllLinks();
    assert all.Success? && multiset(all.value) == multiset(store.rows);
    assert |store.rows| == 1 && store.rows[0].visitCount == 3;
    assert store.rows[0].updatedAt > store.rows[0].createdAt;
    assert all.value == store.rows by {
      assert store.rows == [store.rows[0]];
      assert |multiset(all.value)| == 1;
      assert all.value[0] in multiset(all.value);
    }
    var again := store.CreateLink("GitHub", "https://github.com", None, None);
    assert again == Failure(UniqueViolation);
    var _ := store.DeleteLink(id);
    var _ := store.DeleteLink(id);
    var after := store.GetAllLinks();
    assert after.Success? && after.value == [];
  }
}
