/**
 * The project-data layer of src/index.js, the simpler twin of src/app.js:
 * it reads without any setup step and serves the rows without decoration.
 */
module IndexServer {
  import opened ProjectData

  /** `fallbackProjects` of this server. */
  const FallbackProjects: seq<Project> := [
    Project(1, "taskflow", "TaskFlow",
            "Task management app with role-based access and progress tracking.",
            ["Node.js", "Express", "PostgreSQL", "Bootstrap"]),
    Project(2, "shoplane", "ShopLane",
            "E-commerce storefront with product catalog and checkout flow.",
            ["JavaScript", "Express", "PostgreSQL", "Bootstrap"]),
    Project(3, "devlink", "DevLink",
            "Developer profile and portfolio platform with social integrations.",
            ["Node.js", "Handlebars", "Bootstrap", "REST API"])
  ]

  /**
   * `getProjects`: the fallback list itself on a read error or on zero rows;
   * otherwise one project per row, in query order, copying id, slug, name and
   * description and taking `tech` from an array-valued `tech_stack` or [].
   */
  function GetProjects(outcome: QueryOutcome): (ps: seq<Project>)
    ensures outcome.ReadError? ==> ps == FallbackProjects
    ensures outcome.Rows? && |outcome.rows| == 0 ==> ps == FallbackProjects
    ensures !UsesFallback(outcome) ==>
      |ps| == |outcome.rows| &&
      forall i :: 0 <= i < |ps| ==>
        && ps[i].id == outcome.rows[i].id && ps[i].slug == outcome.rows[i].slug
        && ps[i].name == outcome.rows[i].name && ps[i].description == outcome.rows[i].description
        && ps[i].tech == (if outcome.rows[i].techStack.StringArray? then outcome.rows[i].techStack.tags else [])
  {
    if UsesFallback(outcome) then FallbackProjects else MapRows(outcome.rows)
  }

  function ProjectSlug(p: Project): string { p.slug }

  /**
   * The `/projects/:slug` decision: the first project with that slug, or the
   * 404 page when none has it.
   */
  function ProjectDetail(outcome: QueryOutcome, slug: string): (page: Page<Project>)
    ensures var projects := GetProjects(outcome);
      && (page.NotFound? <==> forall j :: 0 <= j < |projects| ==> projects[j].slug != slug)
      && (page.Detail? ==>
            exists i :: (0 <= i < |projects| && projects[i] == page.project && page.project.slug == slug &&
                         forall j :: 0 <= j < i ==> projects[j].slug != slug))
  {
    DetailPage(GetProjects(outcome), ProjectSlug, slug)
  }

  /**
   * A slug that the read rows carry twice is shown from its first row: the
   * route never reaches a later duplicate.
   */
  lemma FirstRowWins(rows: seq<Row>, i: nat, j: nat)
    requires i < j < |rows| && rows[i].slug == rows[j].slug
    requires forall k :: 0 <= k < i ==> rows[k].slug != rows[i].slug
    ensures ProjectDetail(Rows(rows), rows[i].slug) == Detail(ToProject(rows[i]))
  {
  }

  /** With the store down, the detail route serves the fallback entries and 404s the rest. */
  lemma DetailWithStoreDown(slug: string)
    ensures ProjectDetail(ReadError, "shoplane") == Detail(FallbackProjects[1])
    ensures ProjectDetail(ReadError, "flight-booking-app") == NotFound
    ensures ProjectDetail(ReadError, slug).NotFound? <==> slug != "taskflow" && slug != "shoplane" && slug != "devlink"
  {
  }
}
