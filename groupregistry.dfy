/** tools/import_new_groups.py: registering leak-site groups in the store,
    one record per group name, and the summary `main` prints of how many
    groups were added, skipped or failed. */
module GroupRegistry {
  import opened Wrappers

  /** The settings of a group record other than its locations. */
  datatype Settings = Settings(captcha: bool, parser: bool, javascriptRender: bool,
                               meta: Option<string>, profile: seq<string>)

  /** A group record: the sites it is reachable at, and its settings. */
  datatype Group = Group(locations: seq<string>, settings: Settings)

  /** What the store holds under a group's key: a record, or a value that is
      not a JSON object (reading it raises). */
  datatype Entry = Record(group: Group) | Malformed

  /** `True`, `False`, or an exception out of `add_group`. */
  datatype Outcome = Added | Skipped | Raised

  type Records = map<string, Entry>

  /** The record `add_group` creates for a group it has not seen (lines 97-104). */
  function Fresh(url: string): Group {
    Group([url], Settings(false, true, false, None, []))
  }

  /** `add_group(red, name, url)`: the new contents of the store and the
      outcome. */
  function Add(records: Records, name: string, url: string): (Records, Outcome) {
    if name !in records then (records[name := Record(Fresh(url))], Added)
    else match records[name]
      case Malformed => (records, Raised)
      case Record(g) =>
        if url in g.locations then (records, Skipped)
        else (records[name := Record(g.(locations := g.locations + [url]))], Added)
  }

  /** One database of the store. */
  class GroupStore {
    var records: Records

    constructor(records: Records)
      ensures this.records == records
    {
      this.records := records;
    }

    /** `add_group(red, name, url)`. */
    method AddGroup(name: string, url: string) returns (outcome: Outcome)
      modifies this
      ensures (records, outcome) == Add(old(records), name, url)
    {
      if name in records {
        var existing := records[name];
        if existing.Malformed? {
          return Raised;
        }
        var locations := existing.group.locations;
        if url in locations {
          return Skipped;
        }
        locations := locations + [url];
        records := records[name := Record(existing.group.(locations := locations))];
        return Added;
      }
      records := records[name := Record(Fresh(url))];
      return Added;
    }
  }

  /** An unknown name gets the default record, located at `url` only. */
  lemma AddNew(records: Records, name: string, url: string)
    requires name !in records
    ensures var (r, o) := Add(records, name, url);
      && o == Added && name in r && r[name].Record?
      && r[name].group.locations == [url]
      && r[name].group.settings.parser && !r[name].group.settings.captcha
      && !r[name].group.settings.javascriptRender
      && r[name].group.settings.meta == None && r[name].group.settings.profile == []
  {
  }

  /** A location already registered is skipped and nothing changes. */
  lemma AddKnownUrl(records: Records, name: string, url: string)
    requires name in records && records[name].Record? && url in records[name].group.locations
    ensures Add(records, name, url) == (records, Skipped)
  {
  }

  /** A new location of a known group is appended; the rest of the record
      is kept. */
  lemma AddNewUrl(records: Records, name: string, url: string)
    requires name in records && records[name].Record? && url !in records[name].group.locations
    ensures var (r, o) := Add(records, name, url);
      && o == Added && name in r && r[name].Record?
      && r[name].group.locations == records[name].group.locations + [url]
      && r[name].group.settings == records[name].group.settings
  {
  }

  /** Only the key `name` is written; every other key keeps its value. */
  lemma AddFrame(records: Records, name: string, url: string)
    ensures var r := Add(records, name, url).0;
      && r.Keys == records.Keys + {name}
      && forall k | k in records && k != name :: r[k] == records[k]
  {
  }

  /** Unless the stored value is malformed, `url` is a location of `name`
      afterwards and no location was lost or reordered. */
  lemma AddLocations(records: Records, name: string, url: string)
    requires name in records ==> records[name].Record?
    ensures var r := Add(records, name, url).0;
      && name in r && r[name].Record? && url in r[name].group.locations
      && (name in records ==> records[name].group.locations <= r[name].group.locations)
  {
  }

  /** The store changes exactly when the outcome is `True`. */
  lemma AddChanges(records: Records, name: string, url: string)
    ensures var (r, o) := Add(records, name, url);
      (o == Added <==> r != records) && (o == Raised <==> name in records && records[name].Malformed?)
  {
    var (r, o) := Add(records, name, url);
    if o == Added {
      assert name !in records || r[name] != records[name];
    }
  }

  /** A second identical call returns `False` (or raises again on a
      malformed value) and changes nothing. */
  lemma AddIdempotent(records: Records, name: string, url: string)
    ensures var r := Add(records, name, url).0;
      && Add(r, name, url).0 == r
      && Add(r, name, url).1 == (if name in records && records[name].Malformed? then Raised else Skipped)
  {
  }

  // ---------------------------------------------------------------------
  // `main`

  /** An entry of `NEW_GROUPS`. */
  datatype NewGroup = NewGroup(name: string, url: string, db: int)

  /** `NEW_GROUPS` (lines 26-71); the commented-out datavault entry is not
      part of it. */
  const NewGroups: seq<NewGroup> := [
    NewGroup("blacklock", "http://zdkexsh2e7yihw5uhg5hpsgq3dois2m5je7lzfagij2y6iw5ptl35gyd.onion", 0),
    NewGroup("flocker", "http://flock4cvoeqm4c62gyohvmncx6ck2e7ugvyqgyxqtrumklhd5ptwzpqd.onion", 0),
    NewGroup("medusalocker", "http://medusaxko7jxtrojdkxo66j7ck4q5tgktf7uqsqyfry4ebnxlcbkccyd.onion/", 0),
    NewGroup("rebornvc", "http://ransomed.vc", 0),
    NewGroup("silentransomgroup", "https://business-data-leaks.com/", 0)
  ]

  datatype Counts = Counts(added: nat, skipped: nat, failed: nat)

  type Databases = map<int, Records>

  /** One round of the loop at lines 122-148: `up` says whether the
      connection to the entry's database and its `ping` succeed. */
  function Import(dbs: Databases, c: Counts, item: NewGroup, up: bool): (Databases, Counts) {
    if !up || item.db !in dbs then (dbs, c.(failed := c.failed + 1))
    else
      var (r, o) := Add(dbs[item.db], item.name, item.url);
      match o
      case Added => (dbs[item.db := r], c.(added := c.added + 1))
      case Skipped => (dbs[item.db := r], c.(skipped := c.skipped + 1))
      case Raised => (dbs[item.db := r], c.(failed := c.failed + 1))
  }

  /** The loop at lines 122-148 over the first `|items|` entries. */
  function ImportAll(dbs: Databases, items: seq<NewGroup>, up: seq<bool>): (Databases, Counts)
    requires |up| == |items|
    decreases |items|
  {
    if items == [] then (dbs, Counts(0, 0, 0))
    else
      var n := |items| - 1;
      var (d, c) := ImportAll(dbs, items[..n], up[..n]);
      Import(d, c, items[n], up[n])
  }

  /** Every entry is counted exactly once: `added + skipped + failed` is the
      number of entries. */
  lemma {:induction false} ImportAllCounts(dbs: Databases, items: seq<NewGroup>, up: seq<bool>)
    requires |up| == |items|
    ensures var c := ImportAll(dbs, items, up).1; c.added + c.skipped + c.failed == |items|
    decreases |items|
  {
    if items != [] {
      var n := |items| - 1;
      ImportAllCounts(dbs, items[..n], up[..n]);
    }
  }

  /** An entry whose database cannot be reached is counted as failed and
      leaves every database alone. */
  lemma ImportDown(dbs: Databases, c: Counts, item: NewGroup)
    ensures Import(dbs, c, item, false) == (dbs, c.(failed := c.failed + 1))
  {
  }

  /** The databases are the only effect: a database no entry names is never
      written. */
  lemma {:induction false} ImportAllFrame(dbs: Databases, items: seq<NewGroup>, up: seq<bool>, db: int)
    requires |up| == |items|
    requires forall i | 0 <= i < |items| :: items[i].db != db
    ensures var d := ImportAll(dbs, items, up).0;
      d.Keys == dbs.Keys && (db in dbs ==> d[db] == dbs[db])
    decreases |items|
  {
    if items != [] {
      var n := |items| - 1;
      ImportAllFrame(dbs, items[..n], up[..n], db);
    }
  }

  /** Keys are only ever added, and only the names of the entries. */
  lemma {:induction false} ImportAllKeys(dbs: Databases, items: seq<NewGroup>, up: seq<bool>, d: int, k: string)
    requires |up| == |items| && d in dbs
    ensures var r := ImportAll(dbs, items, up).0;
      && r.Keys == dbs.Keys
      && (k in r[d] ==> k in dbs[d] || exists i | 0 <= i < |items| :: items[i].name == k)
    decreases |items|
  {
    if items != [] {
      var n := |items| - 1;
      ImportAllKeys(dbs, items[..n], up[..n], d, k);
      var r := ImportAll(dbs, items, up).0;
      if k in r[d] && k !in dbs[d] && k != items[n].name {
        var i :| 0 <= i < n && items[..n][i].name == k;
        assert items[i] == items[..n][i];
      }
    }
  }

  /** Entries with distinct names that no reachable database knows yet are
      all added. */
  lemma {:induction false} ImportAllFresh(dbs: Databases, items: seq<NewGroup>, up: seq<bool>)
    requires |up| == |items|
    requires forall i | 0 <= i < |items| :: up[i] && items[i].db in dbs && items[i].name !in dbs[items[i].db]
    requires forall i, j | 0 <= i < j < |items| :: items[i].name != items[j].name
    ensures ImportAll(dbs, items, up).1 == Counts(|items|, 0, 0)
    decreases |items|
  {
    if items != [] {
      var n := |items| - 1;
      assert forall i | 0 <= i < n :: items[..n][i] == items[i] && up[..n][i] == up[i];
      ImportAllFresh(dbs, items[..n], up[..n]);
      ImportAllKeys(dbs, items[..n], up[..n], items[n].db, items[n].name);
    }
  }

  /** Run against databases that hold none of the five groups, `main` reports
      five added, none skipped and none failed. */
  lemma MainAddsAll(dbs: Databases)
    requires 0 in dbs && forall i | 0 <= i < |NewGroups| :: NewGroups[i].name !in dbs[0]
    ensures ImportAll(dbs, NewGroups, [true, true, true, true, true]).1 == Counts(5, 0, 0)
  {
    ImportAllFresh(dbs, NewGroups, [true, true, true, true, true]);
  }

  /** The records of every database. */
  function Contents(stores: map<int, GroupStore>): Databases
    reads set d | d in stores :: stores[d]
  {
    map d | d in stores :: stores[d].records
  }

  /** Distinct database numbers are distinct connections. */
  predicate Distinct(stores: map<int, GroupStore>) {
    forall a, b | a in stores && b in stores && a != b :: stores[a] != stores[b]
  }

  /** The loop of `main` (lines 117-148), over `items` with connection
      outcomes `up`. */
  method ImportNewGroups(stores: map<int, GroupStore>, items: seq<NewGroup>, up: seq<bool>)
    returns (added: nat, skipped: nat, failed: nat)
    requires |up| == |items| && Distinct(stores)
    modifies set d | d in stores :: stores[d]
    ensures (Contents(stores), Counts(added, skipped, failed)) == ImportAll(old(Contents(stores)), items, up)
  {
    added, skipped, failed := 0, 0, 0;
    var i := 0;
    while i < |items|
      invariant 0 <= i <= |items|
      invariant (Contents(stores), Counts(added, skipped, failed))
             == ImportAll(old(Contents(stores)), items[..i], up[..i])
    {
      assert items[..i + 1][..i] == items[..i] && up[..i + 1][..i] == up[..i];
      var item := items[i];
      if !up[i] || item.db !in stores {
        failed := failed + 1;
      } else {
        var red := stores[item.db];
        ghost var before := Contents(stores);
        var outcome := red.AddGroup(item.name, item.url);
        forall d | d in stores
          ensures Contents(stores)[d] == before[item.db := red.records][d]
        {
          if d != item.db {
            assert stores[d] != red;
          }
        }
        assert Contents(stores) == before[item.db := red.records];
        match outcome
        case Added => added := added + 1;
        case Skipped => skipped := skipped + 1;
        case Raised => failed := failed + 1;
      }
      i := i + 1;
    }
    assert items[..i] == items && up[..i] == up;
  }
}
