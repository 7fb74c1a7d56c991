/**
 * The `projects` table of src/app.js as an abstract store: its rows in id
 * order and the next value of the `id SERIAL` column. The `slug UNIQUE`
 * constraint, the store-assigned ids and the upsert statement
 * `INSERT ... ON CONFLICT (slug) DO UPDATE SET name, description, tech_stack`
 * are stated here; the seed loop of `ensureDatabaseSetup` is the fold SeedAll.
 */
module ProjectStore {
  import opened ProjectData

  /** A stored row; `tech_stack TEXT[] NOT NULL` always holds an array. */
  datatype TableRow = TableRow(id: int, slug: string, name: string, description: string, techStack: seq<string>)

  /** A seed record: everything but the id, which the store assigns. */
  datatype Seed = Seed(slug: string, name: string, description: string, techStack: seq<string>)

  /** The table's rows in ascending id order, and the id the next insert takes. */
  datatype Store = Store(rows: seq<TableRow>, nextId: int)

  function RowSlug(row: TableRow): string { row.slug }

  predicate HasSlug(rows: seq<TableRow>, slug: string) {
    exists i :: 0 <= i < |rows| && rows[i].slug == slug
  }

  predicate SeedsHave(seeds: seq<Seed>, slug: string) {
    exists j :: 0 <= j < |seeds| && seeds[j].slug == slug
  }

  /** The UNIQUE constraint on `slug`. */
  predicate UniqueSlugs(rows: seq<TableRow>) {
    forall i, j :: 0 <= i < j < |rows| ==> rows[i].slug != rows[j].slug
  }

  /** Rows are kept in creation order, which is ascending id order. */
  predicate AscendingIds(rows: seq<TableRow>) {
    forall i, j :: 0 <= i < j < |rows| ==> rows[i].id < rows[j].id
  }

  /** Every id handed out so far is below the next one: ids are never reused. */
  predicate IdsBelow(rows: seq<TableRow>, bound: int) {
    forall i :: 0 <= i < |rows| ==> rows[i].id < bound
  }

  predicate ValidStore(st: Store) {
    UniqueSlugs(st.rows) && AscendingIds(st.rows) && IdsBelow(st.rows, st.nextId)
  }

  /** The three columns the upsert's DO UPDATE SET overwrites hold the seed's values. */
  predicate HoldsSeed(row: TableRow, s: Seed) {
    row.name == s.name && row.description == s.description && row.techStack == s.techStack
  }

  /** DO UPDATE SET name, description, tech_stack; id and slug stay. */
  function Refresh(row: TableRow, s: Seed): (r: TableRow)
    ensures r.id == row.id && r.slug == row.slug && HoldsSeed(r, s)
  {
    row.(name := s.name, description := s.description, techStack := s.techStack)
  }

  /**
   * One upsert: on a slug conflict the conflicting row is refreshed in place,
   * otherwise one row with the next id is appended.
   */
  function Upserted(st: Store, s: Seed): (r: Store)
    ensures HasSlug(st.rows, s.slug) ==> |r.rows| == |st.rows| && r.nextId == st.nextId
    ensures !HasSlug(st.rows, s.slug) ==>
      r.rows == st.rows + [TableRow(st.nextId, s.slug, s.name, s.description, s.techStack)] &&
      r.nextId == st.nextId + 1
  {
    match FindFirst(st.rows, RowSlug, s.slug)
    case Some(i) => Store(st.rows[i := Refresh(st.rows[i], s)], st.nextId)
    case None => Store(st.rows + [TableRow(st.nextId, s.slug, s.name, s.description, s.techStack)], st.nextId + 1)
  }

  /**
   * An upsert on an existing slug changes only that row's name, description
   * and tech stack: its id, its slug and every other row stay as they were.
   */
  lemma UpsertUpdatesInPlace(st: Store, s: Seed, i: nat)
    requires ValidStore(st) && i < |st.rows| && st.rows[i].slug == s.slug
    ensures Upserted(st, s) == Store(st.rows[i := Refresh(st.rows[i], s)], st.nextId)
  {
  }

  /** The upsert keeps the unique slugs, the id order and the freshness of nextId. */
  lemma UpsertKeepsValid(st: Store, s: Seed)
    requires ValidStore(st)
    ensures ValidStore(Upserted(st, s)) && Upserted(st, s).nextId >= st.nextId
  {
  }

  /** What one upsert does to each row, slug by slug. */
  lemma UpsertEffect(st: Store, s: Seed)
    requires ValidStore(st)
    ensures var r := Upserted(st, s);
      && |r.rows| >= |st.rows|
      && (forall i :: 0 <= i < |st.rows| ==> r.rows[i].id == st.rows[i].id && r.rows[i].slug == st.rows[i].slug)
      && (forall i :: 0 <= i < |st.rows| && st.rows[i].slug != s.slug ==> r.rows[i] == st.rows[i])
      && (forall i :: |st.rows| <= i < |r.rows| ==> r.rows[i].slug == s.slug)
      && (forall i :: 0 <= i < |r.rows| && r.rows[i].slug == s.slug ==> HoldsSeed(r.rows[i], s))
      && (forall k :: HasSlug(r.rows, k) <==> HasSlug(st.rows, k) || k == s.slug)
  {
    var r := Upserted(st, s);
    if i :| 0 <= i < |st.rows| && st.rows[i].slug == s.slug {
      UpsertUpdatesInPlace(st, s, i);
      forall k ensures HasSlug(r.rows, k) <==> HasSlug(st.rows, k) || k == s.slug {
        if HasSlug(st.rows, k) {
          var j :| 0 <= j < |st.rows| && st.rows[j].slug == k;
          assert r.rows[j].slug == k;
        }
        if HasSlug(r.rows, k) {
          var j :| 0 <= j < |r.rows| && r.rows[j].slug == k;
          assert st.rows[j].slug == k;
        }
      }
    } else {
      var n := |st.rows|;
      assert r.rows[n].slug == s.slug;
      forall k ensures HasSlug(r.rows, k) <==> HasSlug(st.rows, k) || k == s.slug {
        if HasSlug(st.rows, k) {
          var j :| 0 <= j < |st.rows| && st.rows[j].slug == k;
          assert r.rows[j].slug == k;
        }
        if HasSlug(r.rows, k) && k != s.slug {
          var j :| 0 <= j < |r.rows| && r.rows[j].slug == k;
          assert j < n && st.rows[j].slug == k;
        }
      }
    }
  }

  /** The `for (const project of seedProjects)` loop: one upsert per seed, in order. */
  function SeedAll(st: Store, seeds: seq<Seed>): (r: Store)
    ensures |st.rows| <= |r.rows| <= |st.rows| + |seeds|
    ensures r.nextId - st.nextId == |r.rows| - |st.rows|
    decreases |seeds|
  {
    if seeds == [] then st
    else Upserted(SeedAll(st, seeds[..|seeds| - 1]), seeds[|seeds| - 1])
  }

  /** The seed that wins for a slug: the last one carrying it. */
  function LastSeed(seeds: seq<Seed>, slug: string): (s: Seed)
    requires SeedsHave(seeds, slug)
    ensures s in seeds && s.slug == slug
    ensures forall j :: 0 <= j < |seeds| && seeds[j].slug == slug ==> seeds[j] == s || exists k :: j < k < |seeds| && seeds[k] == s
    decreases |seeds|
  {
    var last := seeds[|seeds| - 1];
    if last.slug == slug then last
    else
      var init := seeds[..|seeds| - 1];
      assert SeedsHave(init, slug) by {
        var j :| 0 <= j < |seeds| && seeds[j].slug == slug;
        assert init[j] == seeds[j];
      }
      LastSeed(init, slug)
  }

  /** With distinct seed slugs the winning seed for a slug is the one seed carrying it. */
  lemma LastSeedOfDistinct(seeds: seq<Seed>, j: nat)
    requires j < |seeds|
    requires forall a, b :: 0 <= a < b < |seeds| ==> seeds[a].slug != seeds[b].slug
    ensures SeedsHave(seeds, seeds[j].slug) && LastSeed(seeds, seeds[j].slug) == seeds[j]
  {
  }

  /** A slug is among the seeds exactly when it is among all but the last, or is the last one's. */
  lemma SeedsHaveSplit(seeds: seq<Seed>, k: string)
    requires seeds != []
    ensures SeedsHave(seeds, k) <==> SeedsHave(seeds[..|seeds| - 1], k) || k == seeds[|seeds| - 1].slug
  {
    var init := seeds[..|seeds| - 1];
    if SeedsHave(init, k) {
      var j :| 0 <= j < |init| && init[j].slug == k;
      assert seeds[j].slug == k;
    }
    if SeedsHave(seeds, k) && k != seeds[|seeds| - 1].slug {
      var j :| 0 <= j < |seeds| && seeds[j].slug == k;
      assert init[j].slug == k;
    }
  }

  lemma {:induction false} SeedAllKeepsValid(st: Store, seeds: seq<Seed>)
    requires ValidStore(st)
    ensures ValidStore(SeedAll(st, seeds)) && SeedAll(st, seeds).nextId >= st.nextId
    decreases |seeds|
  {
    if seeds != [] {
      var init := seeds[..|seeds| - 1];
      SeedAllKeepsValid(st, init);
      UpsertKeepsValid(SeedAll(st, init), seeds[|seeds| - 1]);
    }
  }

  /**
   * Re-seeding never moves, renumbers or renames a row that was already
   * there; rows are only ever appended after the existing ones.
   */
  lemma {:induction false} SeedAllKeepsIdentity(st: Store, seeds: seq<Seed>)
    requires ValidStore(st)
    ensures var r := SeedAll(st, seeds);
      && |r.rows| >= |st.rows|
      && forall i :: 0 <= i < |st.rows| ==> r.rows[i].id == st.rows[i].id && r.rows[i].slug == st.rows[i].slug
    decreases |seeds|
  {
    if seeds != [] {
      var init := seeds[..|seeds| - 1];
      SeedAllKeepsIdentity(st, init);
      SeedAllKeepsValid(st, init);
      UpsertEffect(SeedAll(st, init), seeds[|seeds| - 1]);
    }
  }

  /** After the seed loop the table holds exactly the old slugs plus the seed slugs. */
  lemma {:induction false} SeedAllSlugs(st: Store, seeds: seq<Seed>)
    requires ValidStore(st)
    ensures forall k :: HasSlug(SeedAll(st, seeds).rows, k) <==> HasSlug(st.rows, k) || SeedsHave(seeds, k)
    decreases |seeds|
  {
    if seeds != [] {
      var init := seeds[..|seeds| - 1];
      var last := seeds[|seeds| - 1];
      SeedAllSlugs(st, init);
      SeedAllKeepsValid(st, init);
      UpsertEffect(SeedAll(st, init), last);
      forall k ensures SeedsHave(seeds, k) <==> SeedsHave(init, k) || k == last.slug {
        SeedsHaveSplit(seeds, k);
      }
    }
  }

  /**
   * After the seed loop every row whose slug some seed carries holds the
   * values of the last such seed; every other row is the row that was there.
   */
  lemma {:induction false} SeedAllValues(st: Store, seeds: seq<Seed>)
    requires ValidStore(st)
    ensures var r := SeedAll(st, seeds);
      forall i :: 0 <= i < |r.rows| ==>
        if SeedsHave(seeds, r.rows[i].slug) then HoldsSeed(r.rows[i], LastSeed(seeds, r.rows[i].slug))
        else i < |st.rows| && r.rows[i] == st.rows[i]
    decreases |seeds|
  {
    if seeds != [] {
      var init := seeds[..|seeds| - 1];
      var last := seeds[|seeds| - 1];
      var m := SeedAll(st, init);
      var r := SeedAll(st, seeds);
      SeedAllValues(st, init);
      SeedAllKeepsValid(st, init);
      UpsertEffect(m, last);
      forall i | 0 <= i < |r.rows|
        ensures if SeedsHave(seeds, r.rows[i].slug) then HoldsSeed(r.rows[i], LastSeed(seeds, r.rows[i].slug))
                else i < |st.rows| && r.rows[i] == st.rows[i]
      {
        var k := r.rows[i].slug;
        SeedsHaveSplit(seeds, k);
        if k != last.slug {
          assert i < |m.rows| && r.rows[i] == m.rows[i];
        }
      }
    }
  }

  /** When every seed slug is already stored, the seed loop inserts nothing. */
  lemma {:induction false} SeedAllOnlyUpdates(st: Store, seeds: seq<Seed>)
    requires ValidStore(st)
    requires forall k :: SeedsHave(seeds, k) ==> HasSlug(st.rows, k)
    ensures |SeedAll(st, seeds).rows| == |st.rows| && SeedAll(st, seeds).nextId == st.nextId
    decreases |seeds|
  {
    if seeds != [] {
      var init := seeds[..|seeds| - 1];
      var last := seeds[|seeds| - 1];
      forall k | SeedsHave(init, k) ensures HasSlug(st.rows, k) {
        var j :| 0 <= j < |init| && init[j].slug == k;
        assert seeds[j].slug == k;
      }
      SeedAllOnlyUpdates(st, init);
      SeedAllSlugs(st, init);
      assert SeedsHave(seeds, last.slug);
      assert HasSlug(SeedAll(st, init).rows, last.slug);
    }
  }

  /**
   * Running the seed loop a second time leaves the table exactly as the
   * first run left it: no duplicate rows, no new ids, no changed values.
   */
  lemma SeedAllIdempotent(st: Store, seeds: seq<Seed>)
    requires ValidStore(st)
    ensures SeedAll(SeedAll(st, seeds), seeds) == SeedAll(st, seeds)
  {
    var r1 := SeedAll(st, seeds);
    var r2 := SeedAll(r1, seeds);
    SeedAllKeepsValid(st, seeds);
    SeedAllSlugs(st, seeds);
    SeedAllOnlyUpdates(r1, seeds);
    SeedAllKeepsIdentity(r1, seeds);
    SeedAllValues(st, seeds);
    SeedAllValues(r1, seeds);
    forall i | 0 <= i < |r1.rows| ensures r2.rows[i] == r1.rows[i] {
      assert r2.rows[i].id == r1.rows[i].id && r2.rows[i].slug == r1.rows[i].slug;
    }
    assert r2.rows == r1.rows;
  }

  /**
   * After the seed loop each seed slug is stored in exactly one row, and that
   * row holds the winning seed's values.
   */
  lemma SeedAllPlacesEverySeed(st: Store, seeds: seq<Seed>, j: nat)
    requires ValidStore(st) && j < |seeds|
    ensures var r := SeedAll(st, seeds);
      exists i :: 0 <= i < |r.rows| && r.rows[i].slug == seeds[j].slug &&
        HoldsSeed(r.rows[i], LastSeed(seeds, seeds[j].slug)) &&
        forall i' :: 0 <= i' < |r.rows| && r.rows[i'].slug == seeds[j].slug ==> i' == i
  {
    var r := SeedAll(st, seeds);
    var k := seeds[j].slug;
    assert SeedsHave(seeds, k);
    SeedAllSlugs(st, seeds);
    SeedAllKeepsValid(st, seeds);
    SeedAllValues(st, seeds);
    var i :| 0 <= i < |r.rows| && r.rows[i].slug == k;
    assert HoldsSeed(r.rows[i], LastSeed(seeds, k));
  }

  /**
   * The select `ORDER BY id ASC`. Rows are kept in id order, so the result is
   * the stored rows, each read back with its array-typed `tech_stack`.
   */
  function Select(st: Store): (rows: seq<Row>)
    ensures |rows| == |st.rows|
    ensures forall i :: 0 <= i < |rows| ==>
      rows[i] == Row(st.rows[i].id, st.rows[i].slug, st.rows[i].name, st.rows[i].description, StringArray(st.rows[i].techStack))
    ensures ValidStore(st) ==> forall i, j :: 0 <= i < j < |rows| ==> rows[i].id < rows[j].id
  {
    seq(|st.rows|, i requires 0 <= i < |st.rows| =>
      Row(st.rows[i].id, st.rows[i].slug, st.rows[i].name, st.rows[i].description, StringArray(st.rows[i].techStack)))
  }

  /** The table object the server's connection pool talks to. */
  class ProjectTable {
    var rows: seq<TableRow>
    var nextId: int

    function State(): Store
      reads this
    {
      Store(rows, nextId)
    }

    predicate Valid()
      reads this
    {
      ValidStore(State())
    }

    /** A freshly created table: no rows, and the id sequence starts at 1. */
    constructor ()
      ensures Valid() && State() == Store([], 1)
    {
      rows := [];
      nextId := 1;
    }

    /** The upsert statement keyed on `slug`. */
    method Upsert(s: Seed)
      requires Valid()
      modifies this
      ensures Valid()
      ensures State() == Upserted(old(State()), s)
    {
      UpsertKeepsValid(State(), s);
      match FindFirst(rows, RowSlug, s.slug)
      case Some(i) =>
        rows := rows[i := Refresh(rows[i], s)];
      case None =>
        rows := rows + [TableRow(nextId, s.slug, s.name, s.description, s.techStack)];
        nextId := nextId + 1;
    }
  }
}
