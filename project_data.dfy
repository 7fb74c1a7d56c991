/**
 * Shapes shared by both servers of the portfolio (src/app.js and
 * src/index.js): the row that the PostgreSQL driver hands back for
 * `SELECT id, slug, name, description, tech_stack FROM projects ORDER BY id`,
 * the project record the templates consume, the coercion from one to the
 * other, and the first-match search behind the `/projects/:slug` route.
 */
module ProjectData {

  datatype Option<+T> = None | Some(value: T)

  /** The `tech_stack` column as JavaScript sees it: an array of strings, or anything else. */
  datatype TechStackValue = StringArray(tags: seq<string>) | NotAnArray

  /** One row of the select, with its fields as the driver returns them. */
  datatype Row = Row(id: int, slug: string, name: string, description: string, techStack: TechStackValue)

  /** The outcome of the select: the query threw, or it returned these rows in query order. */
  datatype QueryOutcome = ReadError | Rows(rows: seq<Row>)

  /** A project as the page templates consume it. */
  datatype Project = Project(id: int, slug: string, name: string, description: string, tech: seq<string>)

  /** What the detail route renders: the matching entry, or the 404 "not found" page. */
  datatype Page<T> = Detail(project: T) | NotFound

  /**
   * Both servers serve their static fallback list when the read failed and
   * also when it succeeded with no rows at all.
   */
  predicate UsesFallback(outcome: QueryOutcome) {
    outcome.ReadError? || |outcome.rows| == 0
  }

  /**
   * The per-row mapping of `rows.map(...)`: the four scalar columns are copied
   * as they are, and `tech_stack` becomes `tech`, defensively replaced by the
   * empty list when it is not an array.
   */
  function ToProject(row: Row): (p: Project)
    ensures p.id == row.id && p.slug == row.slug
    ensures p.name == row.name && p.description == row.description
    ensures row.techStack.StringArray? ==> p.tech == row.techStack.tags
    ensures row.techStack.NotAnArray? ==> p.tech == []
  {
    Project(row.id, row.slug, row.name, row.description,
            if row.techStack.StringArray? then row.techStack.tags else [])
  }

  /** The row a project would have been read from, with `tech` stored as an array. */
  function AsRow(p: Project): Row {
    Row(p.id, p.slug, p.name, p.description, StringArray(p.tech))
  }

  /** The coercion loses nothing exactly when the column really held an array. */
  lemma CoercionRoundTrip(row: Row, p: Project)
    ensures ToProject(AsRow(p)) == p
    ensures AsRow(ToProject(row)) == row <==> row.techStack.StringArray?
  {
  }

  /** `rows.map(...)`: one project per row, in the same order. */
  function MapRows(rows: seq<Row>): (ps: seq<Project>)
    ensures |ps| == |rows|
    ensures forall i :: 0 <= i < |rows| ==> ps[i] == ToProject(rows[i])
  {
    if rows == [] then [] else [ToProject(rows[0])] + MapRows(rows[1..])
  }

  /**
   * `Array.prototype.find` on a key: the index of the first element whose key
   * equals `slug`, or None when no element has it.
   */
  function FindFirst<T>(xs: seq<T>, slugOf: T -> string, slug: string): (r: Option<nat>)
    ensures r.Some? ==> r.value < |xs| && slugOf(xs[r.value]) == slug
    ensures r.Some? ==> forall j :: 0 <= j < r.value ==> slugOf(xs[j]) != slug
    ensures r.None? <==> forall j :: 0 <= j < |xs| ==> slugOf(xs[j]) != slug
  {
    if xs == [] then None
    else if slugOf(xs[0]) == slug then Some(0)
    else match FindFirst(xs[1..], slugOf, slug)
      case None => None
      case Some(k) => Some(k + 1)
  }

  /** The search depends only on the keys: two lists with the same keys, position by position, give the same answer. */
  lemma FindFirstSameKeys<T, U>(xs: seq<T>, xKey: T -> string, ys: seq<U>, yKey: U -> string, slug: string)
    requires |xs| == |ys| && forall j :: 0 <= j < |xs| ==> xKey(xs[j]) == yKey(ys[j])
    ensures FindFirst(xs, xKey, slug) == FindFirst(ys, yKey, slug)
  {
  }

  /**
   * The decision of the `/projects/:slug` handler: render the first entry
   * whose slug equals the requested one, or the 404 page when none does.
   * A missing slug is an ordinary outcome, never an error.
   */
  function DetailPage<T>(xs: seq<T>, slugOf: T -> string, slug: string): (page: Page<T>)
    ensures page.NotFound? <==> forall j :: 0 <= j < |xs| ==> slugOf(xs[j]) != slug
    ensures page.Detail? ==>
      exists i :: 0 <= i < |xs| && xs[i] == page.project && slugOf(xs[i]) == slug &&
        forall j :: 0 <= j < i ==> slugOf(xs[j]) != slug
  {
    match FindFirst(xs, slugOf, slug)
    case Some(i) => Detail(xs[i])
    case None => NotFound
  }
}
