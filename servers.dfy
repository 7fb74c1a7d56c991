/**
 * How the two servers relate: on real rows, src/app.js serves exactly what
 * src/index.js serves, each entry decorated.
 */
module Servers {
  import opened ProjectData
  import App
  import IndexServer

  /** Stripping the decoration from the app's list gives the index server's list, entry for entry. */
  lemma DecorationIsTheOnlyDifference(outcome: QueryOutcome)
    requires !UsesFallback(outcome)
    ensures App.Undecorate(App.GetProjects(outcome)) == IndexServer.GetProjects(outcome)
  {
  }

  /** With the same rows, both detail routes find the same project, or both answer 404. */
  lemma DetailRoutesAgree(outcome: QueryOutcome, slug: string)
    requires !UsesFallback(outcome)
    ensures App.ProjectDetail(outcome, slug).NotFound? <==> IndexServer.ProjectDetail(outcome, slug).NotFound?
    ensures App.ProjectDetail(outcome, slug).Detail? ==>
      App.ProjectDetail(outcome, slug).project.project == IndexServer.ProjectDetail(outcome, slug).project
  {
    var ap := App.GetProjects(outcome);
    var ip := IndexServer.GetProjects(outcome);
    DecorationIsTheOnlyDifference(outcome);
    assert |ap| == |ip|;
    assert forall j :: 0 <= j < |ap| ==> ap[j].project == ip[j];
    FindFirstSameKeys(ap, App.DecoratedSlug, ip, IndexServer.ProjectSlug, slug);
  }
}
