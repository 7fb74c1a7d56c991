# Portfolio project-data layer, modelled in Dafny

The portfolio site has two Express servers. `src/app.js` is the main one and
`src/index.js` is its simpler twin. Both get their project list from a
PostgreSQL table named `projects`, and both fall back to a list compiled into
the file when the store gives nothing usable. This project models that data
layer and proves its guarantees:

- **Setup guard and seeding** (`src/app.js`, `ensureDatabaseSetup`). A
  module-level handle is created by the first call. Every later call returns the
  same handle. If any store statement throws, the failure is caught once and
  becomes a sticky `null`. The setup creates the table, then upserts each seed
  record keyed on its unique `slug`.
- **Read with fallback** (`getProjects` in both files). A read error or zero
  rows gives the fallback list. Otherwise the rows are mapped in query order,
  and a `tech_stack` that is not an array becomes `[]`.
- **Decoration** (`enrichProjects`, `src/app.js` only). Each project gets
  `detailUrl`, `detailTarget`, `detailRel` and `imageUrl` from two static
  slug-keyed tables.
- **Detail lookup** (the `/projects/:slug` handlers). The handler takes the
  first entry whose slug matches. No match is the 404 page, not an error.

Files and modules:

| file | module | contents |
|---|---|---|
| `project_data.dfy` | `ProjectData` | driver rows, read outcomes, the project record, row coercion, first-match search and the detail-page decision |
| `project_store.dfy` | `ProjectStore` | the table as a value (`Store`: rows in id order plus the next id) and its invariant, the upsert, the seed loop `SeedAll` with its lemmas, the select, and the class `ProjectTable` |
| `app_setup.dfy` | `AppSetup` | `seedProjects`, the guard states `NotStarted`, `Done` and `Failed`, the spec functions `RunSetup` and `Ensure`, and the class `SetupGuard` whose method runs the seed loop |
| `app.dfy` | `App` | the link and image tables, the fallback list, decoration, `getProjects`, the detail route, and the load and show handlers as methods |
| `index.dfy` | `IndexServer` | the second server's fallback list, `getProjects` and detail route |
| `servers.dfy` | `Servers` | how the two servers relate |

The store and the network are not modelled; their outcomes are parameters.
A `Fault` names the store statement that throws during setup: 0 is the table
creation, and k ≥ 1 is the upsert of the k-th seed. A `readFails` flag or a
`QueryOutcome` stands for the outcome of the select. Setup statements do not
run in a transaction, so when an upsert fails, the seeds before it stay applied.
The model keeps that behaviour.

Modelling choices:

- **Three guard states.** The handle is `NotStarted`, `Done` or `Failed`. No
  pending state is modelled, because one call settles the handle before any
  other call runs.
- **Rows stay in id order.** Ids are given out in ascending order and rows are
  kept in that order (`ValidStore`), so the select, `ORDER BY id ASC`, returns
  the stored order.
- **The index server skips setup and decoration.** `src/index.js` returns its
  own fallback list unchanged and never runs a setup step.

## Model

| member | source | states |
|---|---|---|
| `ProjectData.ToProject` | src/app.js:177-183 | id, slug, name and description are copied verbatim; `tech` is the `tech_stack` array, or `[]` when the column is not an array |
| `ProjectData.CoercionRoundTrip` | src/app.js:182 | mapping a project back to a row and reading it again returns the same project; a row survives the round trip exactly when its `tech_stack` was an array |
| `ProjectData.MapRows` | src/index.js:79-85 | `rows.map` gives one project per row, with the same length and order |
| `ProjectData.FindFirst` | src/app.js:222 | `find` gives the index of the first element with the slug, and no element before it has the slug; it gives None exactly when no element has the slug |
| `ProjectData.FindFirstSameKeys` | src/index.js:124 | the search depends only on the slugs, position by position |
| `ProjectData.DetailPage` | src/app.js:222-229 | the 404 page appears exactly when no entry has the slug; otherwise the page shows the first entry whose slug matches |
| `ProjectStore.Refresh` | src/app.js:138-141 | DO UPDATE overwrites name, description and tech_stack with the seed's values and keeps id and slug |
| `ProjectStore.Upserted` | src/app.js:134-142 | with an existing slug, the row count and the next id are unchanged; with a new slug, exactly one row is appended, with the next id and the seed's values, and the next id moves on |
| `ProjectStore.UpsertUpdatesInPlace` | src/app.js:137-141 | on a slug conflict, only the conflicting row changes, and only in name, description and tech_stack; every other row and the next id stay the same |
| `ProjectStore.UpsertKeepsValid` | src/app.js:124-125 | an upsert keeps slugs unique, ids ascending and every id below the next one, so an id is never reused |
| `ProjectStore.UpsertEffect` | src/app.js:134-142 | an upsert keeps every existing row's id and slug; rows with other slugs stay untouched; appended rows carry the seed's slug; the row with the seed's slug holds the seed's values; the slug set grows by the seed's slug |
| `ProjectStore.LastSeed` | src/app.js:144-151 | the winning seed for a slug is a seed with that slug, and no seed with the slug comes after it |
| `ProjectStore.LastSeedOfDistinct` | src/app.js:83-98 | when seed slugs are distinct, the winning seed for a slug is the only seed with it |
| `ProjectStore.SeedAll` | src/app.js:144-151 | the loop adds at most one row per seed and never removes one, and the next id moves on by exactly the number of rows added. Its other properties are in the `SeedAll…` lemmas below |
| `ProjectStore.SeedAllKeepsValid` | src/app.js:144-151 | the seed loop keeps slugs unique, ids ascending and fresh, and never lowers the next id |
| `ProjectStore.SeedAllKeepsIdentity` | src/app.js:144-151 | re-seeding never renumbers, renames or moves a stored row; new rows are only appended |
| `ProjectStore.SeedAllSlugs` | src/app.js:144-151 | after the loop, the stored slugs are exactly the old slugs plus the seed slugs |
| `ProjectStore.SeedAllValues` | src/app.js:144-151 | after the loop, each row whose slug a seed carries holds the last such seed's values; every other row is the old row at the same position |
| `ProjectStore.SeedAllOnlyUpdates` | src/app.js:134-151 | when every seed slug is already stored, the loop inserts nothing and leaves the next id alone |
| `ProjectStore.SeedAllIdempotent` | src/app.js:134-151 | running the seed loop twice leaves the same table as running it once |
| `ProjectStore.SeedAllPlacesEverySeed` | src/app.js:144-151 | after the loop, each seed slug is in exactly one row, and that row holds the winning seed's values |
| `ProjectStore.Select` | src/app.js:164-170 | the select returns one driver row per stored row, with tech_stack as an array; on a well-formed table the ids are strictly ascending, as ORDER BY id ASC requires |
| `ProjectStore.ProjectTable.constructor` | src/app.js:123-129 | a newly created table is empty, its id sequence starts at 1, and it is well formed |
| `ProjectStore.ProjectTable.Upsert` | src/app.js:145-150 | the table's new state is the upsert of the old state, and the invariant is kept |
| `AppSetup.RunSetup` | src/app.js:121-155 | a run always settles; it fails exactly when some statement up to the last upsert throws; a completed run applied every seed; a failure at the table creation leaves the table as it was; a failure at the k-th upsert leaves exactly the first k-1 seeds applied |
| `AppSetup.Ensure` | src/app.js:119-157 | the handle is settled after every call; a call on a settled handle returns its outcome and leaves the store alone. `EnsureRunsOnce` states the two-call consequence |
| `AppSetup.EnsureRunsOnce` | src/app.js:119-157 | the first call settles the handle; once it is settled, any later call returns the same outcome and leaves the store alone, whatever the store would do, so a failure is never retried or re-raised |
| `AppSetup.RunSetupKeepsRows` | src/app.js:121-155 | whether the run completes or fails, the table stays well formed and no existing row is renumbered or renamed |
| `AppSetup.CompletedSetupInstallsSeeds` | src/app.js:83-98 | after a completed setup, each entry of seedProjects is in exactly one row, with its own name, description and tech stack |
| `AppSetup.SetupIdempotentAcrossRestarts` | src/app.js:122-151 | a second completed setup, as on the next process start, leaves the table exactly as the first left it |
| `AppSetup.SetupGuard.constructor` | src/app.js:100 | before any call, the handle is unset |
| `AppSetup.SetupGuard.EnsureDatabaseSetup` | src/app.js:118-158 | the handle and table after the call are what `Ensure` gives for the old handle and table; the upsert loop keeps the table equal to the seed fold over the seeds done so far |
| `App.Decorate` | src/app.js:103-114 | the project's own fields are kept. A slug with an external link gets `detailUrl` set to that link, `_blank` and `noopener noreferrer`. Any other slug gets `/projects/<slug>`, `_self` and an empty rel. `imageUrl` is the mapped image or null. This holds for every slug |
| `App.DecorationExamples` | src/app.js:73-81 | `flight-booking-app` links to its GitHub repository in a new tab and has its image; `unknown-x` links to `/projects/unknown-x` in the same tab and has no image |
| `App.Enrich` | src/app.js:102-116 | the output has the same length and order as the input, and each entry is the decoration of the input entry at the same position |
| `App.EnrichKeepsProjects` | src/app.js:108-109 | removing the decoration gives back the input list exactly |
| `App.GetProjects` | src/app.js:170-188 | a read error or zero rows gives the decorated fallback list; otherwise the result has one decorated, coerced project per row, in query order |
| `App.ProjectDetail` | src/app.js:220-229 | the 404 page appears exactly when no project in the list has the slug; otherwise the page shows the first project whose slug matches |
| `App.DetailWithStoreDown` | src/app.js:17-34 | with the store down, `flight-booking-app` and `qibla-compass-app` still have detail pages (their fallback entries, decorated), and every other slug gets a 404 |
| `App.FreshDeploymentMatchesFallback` | src/app.js:17-98 | on an empty table, a completed first setup followed by a read gives exactly the decorated fallback list: the seeds and the fallback describe the same projects with ids 1 and 2 |
| `App.LoadProjects` | src/app.js:160-189 | the handler settles the guard with `Ensure`, then returns `GetProjects` of the read on the resulting table, whatever the setup outcome was |
| `App.ShowProject` | src/app.js:220-229 | the handler loads the projects as above, then renders `ProjectDetail` for the requested slug |
| `IndexServer.GetProjects` | src/index.js:65-90 | a read error or zero rows gives `fallbackProjects` unchanged; otherwise the result has one project per row, in order, with id, slug, name and description copied and `tech` coerced |
| `IndexServer.ProjectDetail` | src/index.js:122-131 | the 404 page appears exactly when no project has the slug; otherwise the page shows the first project whose slug matches |
| `IndexServer.FirstRowWins` | src/index.js:124 | when the rows carry a slug twice, the detail page shows its first row |
| `IndexServer.DetailWithStoreDown` | src/index.js:18-40 | with the store down, `shoplane` has its fallback page, `flight-booking-app` of the other server gets a 404, and a slug gets a 404 exactly when it is not `taskflow`, `shoplane` or `devlink` |
| `Servers.DecorationIsTheOnlyDifference` | src/app.js:176-184 | on the same non-empty rows, removing the decoration from the app server's list gives the index server's list |
| `Servers.DetailRoutesAgree` | src/app.js:222-229 | on the same non-empty rows, both detail routes find the same project, or both give a 404 |

## Left out

- Express routing, hbs templates and partials, static files, `app.listen`, `dotenv` and the `year` helper: these are web-framework I/O and the clock. Only the handlers' `find` decision and their data flow (`LoadProjects`, `ShowProject`) are modelled.
- The page payloads other than the project list (`experiences`, `techStack`, titles, contact links): they are constants with no logic.
- `console.error` logging of the setup and read failures.
- Concurrency around `dbReadyPromise`: callers that arrive while the setup is pending and await the same promise are not modelled. The guard is a sequential state machine that one call settles.
- The `pg` pool and SQL execution: the table is an abstract `Store`. `CREATE TABLE IF NOT EXISTS` is one statement that either succeeds (the table exists) or throws. A new table is the constructor's empty table, with ids starting at 1.
- PostgreSQL's SERIAL sequence: with `INSERT ... ON CONFLICT DO UPDATE` the real sequence also uses up a value on a conflicting upsert. The model advances `nextId` only on an insert and promises only that ids are fresh and ascending.
- `ProjectStore.Select`: models `ORDER BY id ASC` only on tables that keep the model's invariant (rows stored in ascending id order). It does not sort an arbitrary table.
- JavaScript object-prototype lookups: a slug such as `"constructor"` would find an inherited property in `projectDetailLinks`. The tables are plain finite maps. Only JavaScript's truthiness of the found string is modelled.
- `Array.isArray` accepts arrays whose elements are not strings. The model's array column holds strings only, as `TEXT[]` does.
- `src/assets/js/theme.js`: it is DOM, storage and scroll-geometry UI code, outside the data layer.
