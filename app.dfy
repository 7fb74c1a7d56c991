/**
 * The project-data layer of src/app.js: decoration of each project with its
 * presentation fields (`enrichProjects`), read-with-fallback (`getProjects`)
 * and the slug lookup of the `/projects/:slug` handler.
 */
module App {
  import opened ProjectData
  import opened ProjectStore
  import opened AppSetup

  /** `projectDetailLinks`: projects whose detail link leaves the site. */
  const ProjectDetailLinks: map<string, string> := map[
    "flight-booking-app" := "https://github.com/GirindraSW/AirPlaneCourseREH",
    "qibla-compass-app" := "https://github.com/GirindraSW/RSD_Qibla"
  ]

  /** `projectImages`: the card image of each project that has one. */
  const ProjectImages: map<string, string> := map[
    "flight-booking-app" := "/img/airplane.png",
    "qibla-compass-app" := "/img/qibla.png"
  ]

  /** `fallbackProjects`: what the pages show when the store gives nothing usable. */
  const FallbackProjects: seq<Project> := [
    Project(1, "qibla-compass-app",
            "Qibla Direction Recommender App",
            "Built a Flutter app that recommends Qibla direction and stores app data in Firebase. The related journal was published in SINTA 3.",
            ["Flutter", "Dart", "Firebase"]),
    Project(2, "flight-booking-app",
            "Flight Booking App",
            "Developed a full stack mobile app for airplane ticket and seat booking with Firebase integration.",
            ["Flutter", "Dart", "Firebase"])
  ]

  /** A project with the fields `enrichProjects` adds; `imageUrl` None is JavaScript's `null`. */
  datatype DecoratedProject = DecoratedProject(
    project: Project,
    imageUrl: Option<string>,
    detailUrl: string,
    detailTarget: string,
    detailRel: string)

  /** `table[key] || ...` takes the entry only when it exists and is truthy, i.e. not "". */
  function TruthyLookup(table: map<string, string>, key: string): Option<string> {
    if key in table && table[key] != "" then Some(table[key]) else None
  }

  /** The internal detail route of a slug. */
  function InternalUrl(slug: string): string {
    "/projects/" + slug
  }

  /**
   * The decoration of one project. It is total: any slug, mapped or not,
   * gets a detail link, and the link opens in a new tab, with
   * `rel="noopener noreferrer"`, exactly when the slug has an external link.
   */
  function Decorate(p: Project): (d: DecoratedProject)
    ensures d.project == p
    ensures p.slug in ProjectDetailLinks ==>
      d.detailUrl == ProjectDetailLinks[p.slug] && d.detailTarget == "_blank" && d.detailRel == "noopener noreferrer"
    ensures p.slug !in ProjectDetailLinks ==>
      d.detailUrl == InternalUrl(p.slug) && d.detailTarget == "_self" && d.detailRel == ""
    ensures p.slug in ProjectImages ==> d.imageUrl == Some(ProjectImages[p.slug])
    ensures p.slug !in ProjectImages ==> d.imageUrl == None
  {
    var link := TruthyLookup(ProjectDetailLinks, p.slug);
    var isExternal := link.Some?;
    DecoratedProject(
      p,
      TruthyLookup(ProjectImages, p.slug),
      if isExternal then link.value else InternalUrl(p.slug),
      if isExternal then "_blank" else "_self",
      if isExternal then "noopener noreferrer" else "")
  }

  /** The decoration of a mapped and of an unmapped slug. */
  lemma DecorationExamples(mapped: Project, unmapped: Project)
    requires mapped.slug == "flight-booking-app" && unmapped.slug == "unknown-x"
    ensures Decorate(mapped).detailUrl == "https://github.com/GirindraSW/AirPlaneCourseREH"
    ensures Decorate(mapped).detailTarget == "_blank" && Decorate(mapped).detailRel == "noopener noreferrer"
    ensures Decorate(mapped).imageUrl == Some("/img/airplane.png")
    ensures Decorate(unmapped).detailUrl == "/projects/unknown-x"
    ensures Decorate(unmapped).detailTarget == "_self" && Decorate(unmapped).detailRel == ""
    ensures Decorate(unmapped).imageUrl == None
  {
  }

  /** `enrichProjects`: `list.map` of the decoration, same length and order. */
  function Enrich(list: seq<Project>): (r: seq<DecoratedProject>)
    ensures |r| == |list|
    ensures forall i :: 0 <= i < |list| ==> r[i] == Decorate(list[i])
  {
    if list == [] then [] else [Decorate(list[0])] + Enrich(list[1..])
  }

  /** The underlying projects of a decorated list. */
  function Undecorate(ds: seq<DecoratedProject>): seq<Project> {
    seq(|ds|, i requires 0 <= i < |ds| => ds[i].project)
  }

  /** Decoration only adds fields: every item keeps all of its own, in order. */
  lemma EnrichKeepsProjects(list: seq<Project>)
    ensures Undecorate(Enrich(list)) == list
  {
  }

  /**
   * `getProjects`: the decorated fallback list when the read failed or found
   * no rows, otherwise the decorated rows in query order with a non-array
   * `tech_stack` coerced to [].
   */
  function GetProjects(outcome: QueryOutcome): (r: seq<DecoratedProject>)
    ensures UsesFallback(outcome) ==> r == Enrich(FallbackProjects)
    ensures !UsesFallback(outcome) ==>
      |r| == |outcome.rows| &&
      forall i :: 0 <= i < |r| ==> r[i] == Decorate(ToProject(outcome.rows[i]))
  {
    if UsesFallback(outcome) then Enrich(FallbackProjects) else Enrich(MapRows(outcome.rows))
  }

  function DecoratedSlug(d: DecoratedProject): string { d.project.slug }

  /**
   * The `/projects/:slug` decision over the list `getProjects` produced: the
   * first entry with that slug, or the 404 page when there is none.
   */
  function ProjectDetail(outcome: QueryOutcome, slug: string): (page: Page<DecoratedProject>)
    ensures var projects := GetProjects(outcome);
      && (page.NotFound? <==> forall j :: 0 <= j < |projects| ==> projects[j].project.slug != slug)
      && (page.Detail? ==>
            exists i :: (0 <= i < |projects| && projects[i] == page.project && page.project.project.slug == slug &&
                         forall j :: 0 <= j < i ==> projects[j].project.slug != slug))
  {
    DetailPage(GetProjects(outcome), DecoratedSlug, slug)
  }

  /** With the store down, the detail route still finds the fallback projects, and only those. */
  lemma DetailWithStoreDown(slug: string)
    ensures ProjectDetail(ReadError, "flight-booking-app") == Detail(Decorate(FallbackProjects[1]))
    ensures ProjectDetail(ReadError, "qibla-compass-app") == Detail(Decorate(FallbackProjects[0]))
    ensures ProjectDetail(ReadError, slug).NotFound? <==> slug != "qibla-compass-app" && slug != "flight-booking-app"
  {
    var ps := GetProjects(ReadError);
    assert |ps| == 2;
    assert ps[0].project.slug == "qibla-compass-app" && ps[1].project.slug == "flight-booking-app";
  }

  /**
   * On a fresh deployment (an empty table whose ids start at 1) a completed
   * first setup makes the home page show exactly what the fallback shows:
   * the seed list and the fallback list describe the same projects.
   */
  lemma FreshDeploymentMatchesFallback()
    ensures var (state, st) := Ensure(NotStarted, Store([], 1), NoFault);
      state == Done && GetProjects(Rows(Select(st))) == GetProjects(ReadError)
  {
    var empty := Store([], 1);
    var one := Upserted(empty, SeedProjects[0]);
    assert !HasSlug(empty.rows, SeedProjects[0].slug);
    assert one.rows == [TableRow(1, SeedProjects[0].slug, SeedProjects[0].name, SeedProjects[0].description, SeedProjects[0].techStack)];
    assert !HasSlug(one.rows, SeedProjects[1].slug);
    assert SeedProjects[..1] == [SeedProjects[0]];
    assert SeedAll(empty, SeedProjects[..1]) == one;
    var st := SeedAll(empty, SeedProjects);
    assert st == Upserted(one, SeedProjects[1]);
    assert MapRows(Select(st)) == FallbackProjects;
  }

  /** The home page's data: ensure the setup, then read and decorate. */
  method LoadProjects(guard: SetupGuard, fault: Fault, readFails: bool) returns (projects: seq<DecoratedProject>)
    requires guard.Valid()
    modifies guard, guard.table
    ensures guard.Valid()
    ensures (guard.state, guard.table.State()) == Ensure(old(guard.state), old(guard.table.State()), fault)
    ensures projects == GetProjects(if readFails then ReadError else Rows(Select(guard.table.State())))
  {
    var settled := guard.EnsureDatabaseSetup(fault);
    var outcome := if readFails then ReadError else Rows(Select(guard.table.State()));
    projects := GetProjects(outcome);
  }

  /** The `/projects/:slug` handler: load the projects, then pick the detail or the 404 page. */
  method ShowProject(guard: SetupGuard, fault: Fault, readFails: bool, slug: string) returns (page: Page<DecoratedProject>)
    requires guard.Valid()
    modifies guard, guard.table
    ensures guard.Valid()
    ensures (guard.state, guard.table.State()) == Ensure(old(guard.state), old(guard.table.State()), fault)
    ensures page == ProjectDetail(if readFails then ReadError else Rows(Select(guard.table.State())), slug)
  {
    var projects := LoadProjects(guard, fault, readFails);
    page := DetailPage(projects, DecoratedSlug, slug);
  }
}
