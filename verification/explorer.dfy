/** The explorer's navigation state machine: which tab is shown, which
    project is selected, the search text, and the loaded project list;
    the events are the clicks and edits the rendered controls allow. */
module Explorer {
  import opened Wrappers
  import opened AzureTypes
  import ReleaseFilter

  datatype View = ProjectsView | PipelinesView | ReleasesView

  /** The component state, plus the result of the `projects` query, which
      decides which project entries can be clicked. */
  datatype State = State(
    selectedProject: Option<string>,
    view: View,
    query: string,
    projects: Option<seq<Project>>)

  /** The search value the filter button writes; it switches the release
      list to the compliance filter. */
  const NoApproversQuery: string := "production-no-approvers"

  /** The state right after the explorer mounts. */
  function Init(): (s: State)
    ensures s.view == ProjectsView && s.selectedProject == None && s.query == ""
    ensures s.projects == None
  {
    State(None, ProjectsView, "", None)
  }

  /** JavaScript truthiness of `string | null`: present and non-empty. */
  predicate Truthy(o: Option<string>) {
    o.Some? && |o.value| > 0
  }

  datatype Event =
    | ClickTab(target: View)
    | EditQuery(text: string)
    | ClickNoApproversFilter
    | ClickProject(id: string)
    | ProjectsLoaded(loaded: seq<Project>)

  /** The tab buttons rendered: Pipelines and Releases only once a project is selected. */
  function VisibleTabs(s: State): (tabs: set<View>)
    ensures ProjectsView in tabs
    ensures PipelinesView in tabs <==> Truthy(s.selectedProject)
    ensures ReleasesView in tabs <==> Truthy(s.selectedProject)
  {
    if Truthy(s.selectedProject) then {ProjectsView, PipelinesView, ReleasesView} else {ProjectsView}
  }

  /** The filter button is rendered only on the Releases tab. */
  predicate FilterButtonShown(s: State) {
    s.view == ReleasesView
  }

  /** A project entry with this id is rendered: the Projects tab is shown
      and the loaded list holds such a project. */
  predicate ProjectListed(s: State, id: string) {
    s.view == ProjectsView && s.projects.Some? && exists p :: p in s.projects.value && p.id == id
  }

  /** The control behind the event is on screen. */
  predicate Enabled(s: State, e: Event) {
    match e
    case ClickTab(target) => target in VisibleTabs(s)
    case EditQuery(_) => true
    case ClickNoApproversFilter => FilterButtonShown(s)
    case ClickProject(id) => ProjectListed(s, id)
    case ProjectsLoaded(_) => true
  }

  /** One event. A click on a control that is not rendered cannot happen,
      so such an event leaves the state as it is. */
  function Step(s: State, e: Event): (t: State)
    ensures !Enabled(s, e) ==> t == s
    ensures e.ClickTab? && Enabled(s, e) ==> t.view == e.target
    ensures e.EditQuery? ==> t.query == e.text
    ensures e.ClickNoApproversFilter? && Enabled(s, e) ==> t.query == NoApproversQuery
    ensures e.ClickProject? && Enabled(s, e) ==> t.selectedProject == Some(e.id)
    ensures e.ProjectsLoaded? ==> t.projects == Some(e.loaded)
    ensures !e.ClickTab? ==> t.view == s.view
    ensures !e.ClickProject? ==> t.selectedProject == s.selectedProject
    ensures !(e.EditQuery? || e.ClickNoApproversFilter?) ==> t.query == s.query
    ensures !e.ProjectsLoaded? ==> t.projects == s.projects
  {
    if !Enabled(s, e) then s
    else match e
      case ClickTab(target) => s.(view := target)
      case EditQuery(text) => s.(query := text)
      case ClickNoApproversFilter => s.(query := NoApproversQuery)
      case ClickProject(id) => s.(selectedProject := Some(id))
      case ProjectsLoaded(loaded) => s.(projects := Some(loaded))
  }

  /** The state after a sequence of events, applied first to last. */
  function Run(s: State, events: seq<Event>): State
  {
    if |events| == 0 then s else Step(Run(s, events[..|events| - 1]), events[|events| - 1])
  }

  /** A tab click changes the view only, and only to a rendered tab. */
  lemma TabClickChangesOnlyView(s: State, target: View)
    ensures var t := Step(s, ClickTab(target));
      && t.selectedProject == s.selectedProject
      && t.query == s.query
      && t.projects == s.projects
      && (t.view == target <==> target in VisibleTabs(s) || s.view == target)
  {
  }

  /** The filter button writes the sentinel query, and only on the Releases tab. */
  lemma FilterButtonSetsSentinel(s: State)
    ensures s.view == ReleasesView ==> Step(s, ClickNoApproversFilter) == s.(query := NoApproversQuery)
    ensures s.view != ReleasesView ==> Step(s, ClickNoApproversFilter) == s
  {
  }

  /** A project click selects exactly the clicked, listed project. */
  lemma ProjectClickSelects(s: State, id: string)
    ensures ProjectListed(s, id) ==> Step(s, ClickProject(id)).selectedProject == Some(id)
    ensures !ProjectListed(s, id) ==> Step(s, ClickProject(id)) == s
  {
  }

  /** A tab other than Projects is shown only while a (truthy) project is selected. */
  ghost predicate NavigationInvariant(s: State) {
    s.view != ProjectsView ==> Truthy(s.selectedProject)
  }

  lemma StepPreservesInvariant(s: State, e: Event)
    requires NavigationInvariant(s)
    ensures NavigationInvariant(Step(s, e))
  {
  }

  lemma {:induction false} RunPreservesInvariant(s: State, events: seq<Event>)
    requires NavigationInvariant(s)
    ensures NavigationInvariant(Run(s, events))
  {
    if |events| > 0 {
      RunPreservesInvariant(s, events[..|events| - 1]);
      StepPreservesInvariant(Run(s, events[..|events| - 1]), events[|events| - 1]);
    }
  }

  /** From mount, whatever the user does, the Pipelines and Releases tabs
      are shown only with a truthy project selected. */
  lemma {:induction false} ReachableViewsHaveProject(events: seq<Event>)
    ensures var s := Run(Init(), events);
      s.view in {PipelinesView, ReleasesView} ==> Truthy(s.selectedProject)
  {
    RunPreservesInvariant(Init(), events);
  }

  /** Once a project is selected the selection never returns to null. */
  lemma {:induction false} SelectionNeverCleared(s: State, events: seq<Event>)
    requires s.selectedProject.Some?
    ensures Run(s, events).selectedProject.Some?
  {
    if |events| > 0 {
      SelectionNeverCleared(s, events[..|events| - 1]);
    }
  }

  /** The selected project, if any, is the id of a project entry the user
      clicked while it was listed. */
  lemma {:induction false} SelectionComesFromClick(events: seq<Event>, id: string)
    requires Run(Init(), events).selectedProject == Some(id)
    ensures exists i :: 0 <= i < |events| && events[i] == ClickProject(id) && ProjectListed(Run(Init(), events[..i]), id)
  {
    var n := |events| - 1;
    var prefix := events[..n];
    var before := Run(Init(), prefix);
    if events[n] == ClickProject(id) && ProjectListed(before, id) {
      assert events[..n] == prefix;
    } else {
      assert before.selectedProject == Some(id);
      SelectionComesFromClick(prefix, id);
      var i :| 0 <= i < |prefix| && prefix[i] == ClickProject(id) && ProjectListed(Run(Init(), prefix[..i]), id);
      assert prefix[..i] == events[..i];
    }
  }

  // ---- Queries: which fetches run, and under which key ----

  datatype Kind = PipelinesKind | ReleasesKind

  /** A react-query key: the constant `'projects'`, or `[kind, selectedProject]`. */
  datatype QueryKey = ProjectsKey | ScopedKey(kind: Kind, project: Option<string>)

  function KeyOf(kind: Kind, s: State): (key: QueryKey)
    ensures key.ScopedKey? && key.kind == kind && key.project == s.selectedProject
  {
    ScopedKey(kind, s.selectedProject)
  }

  /** The pipeline and release queries are enabled only for a truthy selection. */
  predicate FetchEnabled(s: State) {
    Truthy(s.selectedProject)
  }

  /** The project id the query function requests, or None where it yields null. */
  function FetchTarget(kind: Kind, s: State): (target: Option<string>)
    ensures target.Some? <==> FetchEnabled(s)
    ensures target.Some? ==> target == s.selectedProject
  {
    if Truthy(s.selectedProject) then s.selectedProject else None
  }

  /** Two scoped keys coincide exactly when kind and selection coincide, so a
      new selection means a new query and tab clicks never change one. */
  lemma KeysTrackSelection(k1: Kind, s1: State, k2: Kind, s2: State)
    ensures KeyOf(k1, s1) == KeyOf(k2, s2) <==> k1 == k2 && s1.selectedProject == s2.selectedProject
    ensures KeyOf(k1, s1) != ProjectsKey
  {
  }

  /** Without a project click, no query key and no enablement changes:
      switching tabs, typing and filtering never invalidate fetched data. */
  lemma {:induction false} QueriesStableWithoutProjectClick(s: State, events: seq<Event>, kind: Kind)
    requires forall i :: 0 <= i < |events| ==> !events[i].ClickProject?
    ensures KeyOf(kind, Run(s, events)) == KeyOf(kind, s)
    ensures FetchEnabled(Run(s, events)) == FetchEnabled(s)
  {
    if |events| > 0 {
      var n := |events| - 1;
      assert forall i :: 0 <= i < n ==> events[..n][i] == events[i];
      QueriesStableWithoutProjectClick(s, events[..n], kind);
    }
  }

  /** From mount, on the Pipelines or Releases tab the fetches are enabled
      and request the selected project. */
  lemma {:induction false} ReachableViewsFetch(events: seq<Event>, kind: Kind)
    ensures var s := Run(Init(), events);
      s.view != ProjectsView ==> FetchEnabled(s) && FetchTarget(kind, s) == s.selectedProject
  {
    RunPreservesInvariant(Init(), events);
  }

  // ---- The release list on screen ----

  /** The list the Releases tab renders from the loaded releases: the
      compliance filter under the sentinel query, else the list as loaded. */
  function DisplayedReleases(query: string, releases: seq<Release>): (shown: seq<Release>)
    ensures query == NoApproversQuery ==> forall r :: r in shown <==> r in releases && ReleaseFilter.IsFlagged(r)
    ensures query != NoApproversQuery ==> shown == releases
  {
    if query == NoApproversQuery then ReleaseFilter.FilterReleases(Some(releases)) else releases
  }

  /** The Releases panel: present only on the Releases tab once releases
      have loaded. */
  function RenderedReleases(s: State, releases: Option<seq<Release>>): (shown: Option<seq<Release>>)
    ensures shown.Some? <==> s.view == ReleasesView && releases.Some?
    ensures shown.Some? ==> shown.value == DisplayedReleases(s.query, releases.value)
  {
    if s.view == ReleasesView && releases.Some? then Some(DisplayedReleases(s.query, releases.value)) else None
  }

  /** Under the sentinel the shown list is an order-preserving subsequence
      of the loaded list holding exactly the flagged releases. */
  lemma SentinelShowsFilteredSubsequence(releases: seq<Release>)
    ensures var shown := DisplayedReleases(NoApproversQuery, releases);
      && ReleaseFilter.SelectsAt(releases, ReleaseFilter.KeptIndices(releases), shown)
      && (forall i :: 0 <= i < |releases| ==>
            (i in ReleaseFilter.KeptIndices(releases) <==> ReleaseFilter.IsFlagged(releases[i])))
  {
    ReleaseFilter.FilterIsSubsequence(releases);
  }

  /** Pressing the filter button on the Releases tab shows the filtered
      list; typing any other text afterwards shows the loaded list again,
      in its original order. */
  lemma FilterToggle(s: State, releases: seq<Release>, text: string)
    requires s.view == ReleasesView
    requires text != NoApproversQuery
    ensures var on := Step(s, ClickNoApproversFilter);
      && RenderedReleases(on, Some(releases)) == Some(ReleaseFilter.FilterReleases(Some(releases)))
      && RenderedReleases(Step(on, EditQuery(text)), Some(releases)) == Some(releases)
  {
  }
}
