# Azure DevOps explorer: release-compliance filter and navigation

A Dafny model of the explorer component of a small Azure DevOps dashboard.
The component browses projects, pipelines and releases. It can narrow the
release list to the releases that have a production environment with no
pre-deployment approvers. The model has two parts:

- **The compliance filter** (`ReleaseFilter`, with concrete cases in
  `ReleaseFilterExamples`). A release is kept when at least one of its
  environments meets two conditions. Its name, lower-cased, contains
  `production`. Its `preDeployApprovals` list is missing or empty. The filter
  is an order-preserving selection over `seq<Release>`, and it returns `[]`
  when the releases have not loaded. `Text` models the two string
  operations it uses: `toLowerCase` over ASCII, and `includes`.
- **The explorer state machine** (`Explorer`). The state is the selected
  project, the visible tab (`view`), the search text (`query`) and the
  result of the `projects` query. Events are tab clicks, edits of the search
  box, the "Production without approvers" button, clicks on a project entry,
  and the arrival of the project list. An event whose control is not
  rendered has no effect. The module also models the react-query keys and
  the `enabled` flag of the pipeline and release fetches. It also models the
  choice of which release list is shown: the filtered list exactly under the
  sentinel query `production-no-approvers`, otherwise the list as loaded.

Modules: `Wrappers` (Option), `AzureTypes` (the records of
`src/types/azure.ts`), `Text`, `ReleaseFilter`, `ReleaseFilterExamples`,
`Explorer`.

Where the type declaration and the code disagree, the model follows the
code. `src/types/azure.ts` declares `preDeployApprovals` as a required
array. The filter still treats it as possibly absent
(`src/components/Explorer.tsx:34`). So the model types it as
`Option<seq<Approval>>`.

## Model

| member | source | states |
|---|---|---|
| Text.LowerChar | src/components/Explorer.tsx:33 | lower-casing one character leaves no upper-case ASCII letter, maps A-Z to the same letter in a-z, and leaves every other character unchanged |
| Text.ToLower | src/components/Explorer.tsx:33 | `toLowerCase` keeps the length and lowers each character in place |
| Text.IncludesIff | src/components/Explorer.tsx:33 | the left-to-right `includes` scan succeeds exactly when the substring occurs at some position |
| Text.ShorterNeverIncludes | src/components/Explorer.tsx:33 | a string never includes a longer one |
| ReleaseFilter.ProductionNameIff | src/components/Explorer.tsx:33 | an environment name is production-like exactly when "production" occurs somewhere in its lower-cased form |
| ReleaseFilter.AnyUnguardedIff | src/components/Explorer.tsx:32-35 | `environments.some(...)` holds exactly when some environment is production-named and has missing or empty approvals |
| ReleaseFilter.FilterSeq | src/components/Explorer.tsx:31-36 | the filtered list is no longer than the input; a release is in it exactly when it is in the input and is flagged |
| ReleaseFilter.FilterReleases | src/components/Explorer.tsx:29-37 | with the releases not loaded the result is empty; otherwise it holds exactly the loaded, flagged releases |
| ReleaseFilter.KeptIndices | src/components/Explorer.tsx:31-36 | the kept positions are in range, strictly increasing, and a position is kept exactly when its release is flagged |
| ReleaseFilter.FilterIsSubsequence | src/components/Explorer.tsx:31-36 | the output is the input at exactly the flagged positions, in increasing order: nothing is added, reordered or modified |
| ReleaseFilter.FilterKeepsAllFlagged | src/components/Explorer.tsx:31-36 | a list of flagged releases passes the filter unchanged |
| ReleaseFilter.FilterIdempotent | src/components/Explorer.tsx:31-36 | filtering the filtered list changes nothing |
| ReleaseFilter.FilterReleasesIdempotent | src/components/Explorer.tsx:29-37 | `filterReleases` applied to its own result returns that result, whether or not releases were loaded |
| ReleaseFilter.FilterAppend | src/components/Explorer.tsx:31-36 | filtering a concatenation is the concatenation of the filtered parts |
| ReleaseFilter.FilterKeepsOrder | src/components/Explorer.tsx:31-36 | from [A, B, C] with A and C flagged and B not, the result is [A, C] |
| ReleaseFilter.ApprovalDecides | src/components/Explorer.tsx:32-35 | for a release with one production-named environment, the release is kept exactly when that environment has no approvals |
| ReleaseFilter.UnapprovedStagingIsNotEnough | src/components/Explorer.tsx:32-35 | a non-production environment without approvals plus an approved second environment does not flag the release |
| ReleaseFilter.OneUnapprovedProductionSuffices | src/components/Explorer.tsx:32-34 | one production environment without approvals flags the release, whatever the others are |
| ReleaseFilterExamples.ProductionMatches | src/components/Explorer.tsx:33 | "Production" matches the name rule |
| ReleaseFilterExamples.UpperCaseProductionMatches | src/components/Explorer.tsx:33 | "PRODUCTION-EU" matches the name rule (case-insensitive) |
| ReleaseFilterExamples.OtherNamesDoNotMatch | src/components/Explorer.tsx:33 | "Prod" and "Staging" do not match |
| ReleaseFilterExamples.ExistenceNotUniversal | src/components/Explorer.tsx:32-35 | [Staging without approvals, Production with one] is dropped; [Production with one, PRODUCTION-EU without a list] is kept; a lone Production is kept with no approvals and dropped with one |
| Explorer.Init | src/components/Explorer.tsx:13-15 | the explorer starts on the Projects tab with no project selected and an empty query |
| Explorer.VisibleTabs | src/components/Explorer.tsx:43-64 | the Projects tab is always rendered; Pipelines and Releases are rendered exactly when the selected project is truthy |
| Explorer.Step | src/components/Explorer.tsx:44-95 | a non-rendered control has no effect; a rendered tab click moves to its tab; the search box sets the query to the typed text; the rendered filter button sets the sentinel; a listed project click selects that id; an arrived project list replaces the loaded one; only tab clicks change the view, only project clicks the selection, only the search box and the filter button the query |
| Explorer.TabClickChangesOnlyView | src/components/Explorer.tsx:43-64 | a tab click leaves selection, query and project list unchanged, and moves to the target exactly when that tab is rendered |
| Explorer.FilterButtonSetsSentinel | src/components/Explorer.tsx:77-85 | on the Releases tab the filter button sets the query to the sentinel and nothing else; on other tabs it has no effect |
| Explorer.ProjectClickSelects | src/components/Explorer.tsx:90-95 | clicking a listed project selects its id; a click on a project that is not listed has no effect |
| Explorer.StepPreservesInvariant | src/components/Explorer.tsx:49-64 | every event keeps "a tab other than Projects implies a truthy selection" |
| Explorer.RunPreservesInvariant | src/components/Explorer.tsx:49-64 | any event sequence keeps that invariant |
| Explorer.ReachableViewsHaveProject | src/components/Explorer.tsx:13-64 | from mount, after any events, Pipelines or Releases is shown only with a truthy project selected |
| Explorer.SelectionNeverCleared | src/components/Explorer.tsx:95 | once a project is selected, no event sequence returns the selection to null |
| Explorer.SelectionComesFromClick | src/components/Explorer.tsx:90-95 | the selected id is the id of a project entry that the user clicked while it was listed |
| Explorer.KeyOf | src/components/Explorer.tsx:18-27 | the pipeline and release queries are keyed by their kind and the selected project |
| Explorer.FetchTarget | src/components/Explorer.tsx:18-27 | a fetch runs exactly when the selection is truthy, and it requests the selected project |
| Explorer.KeysTrackSelection | src/components/Explorer.tsx:18-27 | two keys are equal exactly when kind and selection are equal; no scoped key is the projects key |
| Explorer.QueriesStableWithoutProjectClick | src/components/Explorer.tsx:18-27 | events other than project clicks change neither query key nor enablement |
| Explorer.ReachableViewsFetch | src/components/Explorer.tsx:18-64 | from mount, on the Pipelines or Releases tab the fetches are enabled for the selected project |
| Explorer.DisplayedReleases | src/components/Explorer.tsx:128 | under the sentinel query the shown list holds exactly the flagged loaded releases; under any other query it is the loaded list unchanged |
| Explorer.RenderedReleases | src/components/Explorer.tsx:126-128 | the release panel is rendered exactly on the Releases tab with releases loaded, showing the list chosen by the query |
| Explorer.SentinelShowsFilteredSubsequence | src/components/Explorer.tsx:128 | under the sentinel the shown list is the loaded list at exactly the flagged positions, in order |
| Explorer.FilterToggle | src/components/Explorer.tsx:79-128 | pressing the filter button on the Releases tab shows the filtered list; typing any other text afterwards shows the loaded list again in its original order |

## Left out

- HTTP client (`src/services/azureApi.ts`): network I/O, plus a foreign base64 call for the Basic-auth header. The model sees only fetched data. The unused `queryReleases` is out too.
- Config form validation (`src/components/ConfigForm.tsx`): URL checking is delegated to an external schema library.
- App gating (`src/App.tsx`): a render switch on whether a config exists.
- react-query behaviour: caching, refetching, asynchronous arrival order and discarding stale responses are managed by the framework. Only the query keys and the `enabled` flag are modelled. The pipeline and release data are parameters, not state.
- Rendering and styling: the status-to-colour mapping (`src/components/Explorer.tsx:113-117`, `:135-139`), the project and pipeline list layout, and icons.
- Text.LowerChar: lowers ASCII capitals only. Other capitals (`À`, `İ`, the Kelvin sign, ...) stay unchanged, where JavaScript lowers them. This does not change what the filter decides. The marker `production` is pure ASCII. Apart from `İ` (which becomes `i` plus a combining dot) and the Kelvin sign (which becomes `k`), no character lowers to an ASCII letter. Neither can complete `production`: it has no `k`, and its `i` is followed directly by `o`, not by a combining dot. So `IsProductionName` decides as the source does.
- Text.ToLower: ASCII letters only. Full Unicode case mapping of `toLowerCase`, which can change the length, is not modelled.
