# my.multicycle front-end logic in Dafny

my.multicycle is the staff front end of a bicycle shop. It has an org chart
of positions, a video player for training videos, searchable lists of users,
videos and knowledge-base articles, and a navigation sidebar. This project
models the parts of it that make decisions, and proves what they do:

- **CompanyHierarchy** (`hierarchy.dfy`) covers the org-chart page:
  - the expanded-position set and its toggle;
  - direct reports by `managerId`, and the top-level positions;
  - the depth-first render walk, which descends only into expanded positions that have reports;
  - the expand/collapse control, and the empty state.
- **Player** (`player.dfy`) is the `VideoPlayer` component. It is a class with the component's eight state fields and a reference to a `MediaElement`. Each handler is a method. The handlers keep an invariant `Valid()` saying the element agrees with the state. A few pure functions describe where skipping lands and what volume is audible.
- **UserManagement**, **VideoTraining** and **KnowledgeBase** (`user_management.dfy`, `video_training.dfy`, `knowledge_base.dfy`) cover each page's list filter. The filter is a case-insensitive search combined with one or two selectors. These modules also cover:
  - the selector buttons;
  - the badge colours;
  - the "first five" and "first three" slices and the "+N more" note;
  - the empty states.
- **Sidebar** (`sidebar.dfy`) covers:
  - the five navigation entries;
  - the rule for which entry is highlighted on a route;
  - the mobile overlay;
  - the rule for closing the sidebar when a link is clicked.
- **Seqs**, **Text** and **Interfaces** are shared helpers:
  - **Seqs** has `Array.prototype.filter`, `some` and `slice(0, n)` with their properties;
  - **Text** has ASCII `toLowerCase`, `startsWith` and `includes`;
  - **Interfaces** has the records of `interfaces/index.ts`.

In these places the code does something other than what one might expect, and the model follows the code:

- `handleSeek` and `handleVolumeChange` do not clamp their values. Only the sliders' `min`/`max` bound them.
- `toggleMute` does not store the volume; it reuses the `volume` state, which it never changes.
- The hide-controls timer is not debounced. Each mouse move schedules one more timer, and each timer reads the `isPlaying` value from when it was scheduled.
- `renderPosition` has no cycle guard.
- Changing `src` does not reset any player state.
- There is no separate "ended" state in the player. `ended` only clears `isPlaying`; what `play()` does on an element at its end (start again from 0) is the element's own behaviour.
- `togglePlay` flips `isPlaying` without waiting for the element's reply.

On the org chart, the walk is a function of the chart, the expanded set and the ids of the positions it is currently inside. It returns `Rendered(visits)` or `Diverges(id)`:

- `Diverges(id)` means the walk would enter position `id` while already inside it. There the source's recursion is unbounded, because what is drawn below a position depends only on its id and the expanded set. The JavaScript engine ends it with a stack overflow (a `RangeError`), and the page fails to render.
- `SelfReportDiverges` exhibits such a chart.
- `RankedChartRenders` proves that a chart whose reporting lines have no cycle always renders.

A rendered chart starts with the first top-level position at depth 0, and its listing satisfies `PreOrder`. Each step of the listing goes one level down only into the first report of a card that opens; otherwise it does not go deeper. Below every card, up to the next card at its depth or shallower, the cards one level deeper are exactly the reports it lists: all of its direct reports in order when it opens, none otherwise. `SkippedReportRejected` shows a listing that leaves out one report and is rejected.

## Model

| member | source | states |
|---|---|---|
| `CompanyHierarchy.TogglePosition` | pages/company-hierarchy/index.tsx:84-92 | the toggled id flips membership; every other id keeps its membership; the result is a new value, so the old set is unchanged |
| `CompanyHierarchy.ToggleTwice` | pages/company-hierarchy/index.tsx:84-92 | toggling the same id twice gives back the original set |
| `CompanyHierarchy.DirectReports` | pages/company-hierarchy/index.tsx:94-96 | only positions of the chart are returned |
| `CompanyHierarchy.DirectReportsIsFilter` | pages/company-hierarchy/index.tsx:95 | direct reports are `positions.filter(pos => pos.managerId === id)` |
| `CompanyHierarchy.DirectReportsExact` | pages/company-hierarchy/index.tsx:94-96 | the reports are, in chart order, exactly the positions naming the id as manager, each as often as in the chart |
| `CompanyHierarchy.NoReports` | pages/company-hierarchy/index.tsx:94-96 | an id that no position names as manager has no reports |
| `CompanyHierarchy.TopLevel` | pages/company-hierarchy/index.tsx:212 | in input order, exactly the positions whose `managerId` is absent or empty, each as often as listed |
| `CompanyHierarchy.ShowsEmptyState` | pages/company-hierarchy/index.tsx:235 | the empty-state card shows exactly when no position is top-level |
| `CompanyHierarchy.ControlFor` | pages/company-hierarchy/index.tsx:107-119 | the expand/collapse button appears exactly when the position has direct reports, and its chevron shows whether the position is expanded |
| `CompanyHierarchy.Walk` | pages/company-hierarchy/index.tsx:98-100 | a rendered walk starts with the position's own card at its depth; a position that is collapsed or has no reports renders its card alone |
| `CompanyHierarchy.WalkAll` | pages/company-hierarchy/index.tsx:203-205 | the walk of a list of reports is empty exactly when the list is |
| `CompanyHierarchy.WalkShape` | pages/company-hierarchy/index.tsx:98-100 | below a card, every card is deeper; the cards one level deeper are exactly the direct reports, in order, when the position is expanded and has reports, and none otherwise |
| `CompanyHierarchy.WalkAllShape` | pages/company-hierarchy/index.tsx:203-205 | the reports' walks are at their depth or deeper, show only chart positions, and their cards at that depth are exactly the reports in order |
| `CompanyHierarchy.WalkWithin` | pages/company-hierarchy/index.tsx:98-100 | a walk from a chart position shows only chart positions at its depth or deeper, and its only card at its own depth is its first |
| `CompanyHierarchy.WalkControls` | pages/company-hierarchy/index.tsx:107-119 | every card of a walk carries the control its position calls for |
| `CompanyHierarchy.WalkAllControls` | pages/company-hierarchy/index.tsx:203-205 | the same, for the walks of a list of reports |
| `CompanyHierarchy.WalkSteps` | pages/company-hierarchy/index.tsx:98-100 | every step of a walk is a pre-order step: after an opened position comes its first report one level deeper; after any other, the walk does not go deeper; the last card does not open |
| `CompanyHierarchy.WalkAllSteps` | pages/company-hierarchy/index.tsx:203-205 | the same, for the walks of a list of reports |
| `CompanyHierarchy.WalkListsReports` | pages/company-hierarchy/index.tsx:98-100 | below every card of a walk, up to the next card no deeper than it, the cards one level deeper are exactly its direct reports in order when it is expanded and has reports, and none otherwise |
| `CompanyHierarchy.WalkAllListsReports` | pages/company-hierarchy/index.tsx:203-205 | the same, for the walks of a list of reports |
| `CompanyHierarchy.WalkPreOrder` | pages/company-hierarchy/index.tsx:98-100 | the walk is in pre-order: every step is a pre-order step, and below every card come exactly, and in order, the reports it lists |
| `CompanyHierarchy.WalkAllPreOrder` | pages/company-hierarchy/index.tsx:203-205 | the same, for the walks of a list of reports |
| `CompanyHierarchy.RenderChart` | pages/company-hierarchy/index.tsx:212-232 | a rendered chart draws no card exactly when the empty-state card is shown |
| `CompanyHierarchy.RenderChartProperties` | pages/company-hierarchy/index.tsx:212-232 | a rendered chart starts with the first top-level position at depth 0 (nothing comes before it, and a non-empty listing means the empty state is not shown); it is a pre-order walk whose depth-0 cards are exactly the top-level positions in order, below each card of which come exactly its listed reports (no report of an expanded card is left out), with correct controls, showing only chart positions |
| `CompanyHierarchy.WalkRenders` | pages/company-hierarchy/index.tsx:98-100 | on a chart where every manager ranks below its reports, a walk never re-enters a position it is inside |
| `CompanyHierarchy.WalkAllRenders` | pages/company-hierarchy/index.tsx:203-205 | the same, for the walks of a list of reports |
| `CompanyHierarchy.RankedChartRenders` | pages/company-hierarchy/index.tsx:205 | a chart whose reporting lines have no cycle renders under every expanded set |
| `CompanyHierarchy.SelfReportDiverges` | pages/company-hierarchy/index.tsx:205 | a position that is its own manager (both ids empty) makes the unguarded recursion unbounded once expanded |
| `CompanyHierarchy.FixtureReports` | pages/company-hierarchy/index.tsx:36-78 | on the mock chain 1 -> 2 -> 3, only 1 is top-level, and each position reports to the one before it |
| `CompanyHierarchy.FixtureRenders` | pages/company-hierarchy/index.tsx:36-78 | the mock chart renders under every expanded set |
| `CompanyHierarchy.FixtureInitialChart` | pages/company-hierarchy/index.tsx:81 | with `{"1"}` expanded, the chart shows 1 (expanded) and 2 (collapsed), not 3 |
| `CompanyHierarchy.FixtureSecondSubtree` | pages/company-hierarchy/index.tsx:203-205 | with 1 and 2 expanded, the subtree under 2 is 2 (expanded) followed by 3 |
| `CompanyHierarchy.FixtureExpandSecond` | pages/company-hierarchy/index.tsx:84-92 | expanding 2 as well shows 3 at depth 2, with no button |
| `CompanyHierarchy.FixtureCollapseRoot` | pages/company-hierarchy/index.tsx:84-92 | collapsing 1 leaves its card alone |
| `CompanyHierarchy.SkippedReportRejected` | pages/company-hierarchy/index.tsx:203-205 | a listing that leaves out a report of an open card is not in pre-order |
| `Player.SkipTarget` | components/ui/VideoPlayer.tsx:127 | `max(0, min(t + s, d))`: the result lies in [0, d]; it is `t + s` when that is in range, otherwise the end that was overshot |
| `Player.SkipBackUndoesSkipForward` | components/ui/VideoPlayer.tsx:243-254 | back 10 s after forward 10 s returns to the start point when neither jump is clamped |
| `Player.SkipClampsAtEnds` | components/ui/VideoPlayer.tsx:127 | skipping forward from the end, or backward from 0, stays put |
| `Player.Audible` | components/ui/VideoPlayer.tsx:101-112 | the element volume is 0 while muted and the remembered volume otherwise |
| `Player.PlaybackRates` | components/ui/VideoPlayer.tsx:39 | the offered speeds, in menu order (their properties are in `PlaybackRatesOffered`) |
| `Player.PlaybackRatesOffered` | components/ui/VideoPlayer.tsx:39 | seven increasing speeds from 0.25 to 2, including the initial speed 1 |
| `Player.MediaElement.constructor` | components/ui/VideoPlayer.tsx:157-163 | a new element is paused at time 0, with volume 1 and rate 1 |
| `Player.MediaElement.Play` | components/ui/VideoPlayer.tsx:77 | the element is no longer paused; an element at its end starts again from time 0; nothing else changes |
| `Player.MediaElement.Pause` | components/ui/VideoPlayer.tsx:75 | the element is paused; nothing else changes |
| `Player.MediaElement.LoadMetadata` | components/ui/VideoPlayer.tsx:59 | the browser sets the element's duration; nothing else changes |
| `Player.MediaElement.ReachEnd` | components/ui/VideoPlayer.tsx:61 | the browser plays to the end: the playhead stops at the duration and the element pauses itself, before `ended` fires |
| `Player.VideoPlayer.constructor` | components/ui/VideoPlayer.tsx:29-37 | initial state: not playing, time 0, duration 0, volume 1, not muted, controls shown, rate 1, settings closed, no element |
| `Player.VideoPlayer.Mount` | components/ui/VideoPlayer.tsx:157-158 | attaching a new element establishes `Valid()` and changes no state field |
| `Player.VideoPlayer.TogglePlay` | components/ui/VideoPlayer.tsx:70-80 | pauses a playing element and plays a paused one (from 0 if it is at its end), then flips `isPlaying`; with no element nothing changes; keeps `Valid()` |
| `Player.VideoPlayer.Seek` | components/ui/VideoPlayer.tsx:82-89 | element time and state time both become the given value, unclamped; nothing else changes |
| `Player.VideoPlayer.VolumeChange` | components/ui/VideoPlayer.tsx:91-99 | element volume and state volume become `v`, and `isMuted` becomes `v == 0` |
| `Player.VideoPlayer.ToggleMute` | components/ui/VideoPlayer.tsx:101-112 | the remembered volume never changes; unmuting restores it to the element, muting sets the element to 0 |
| `Player.VideoPlayer.ToggleMuteTwice` | components/ui/VideoPlayer.tsx:101-112 | muting then unmuting restores the element volume and the mute flag |
| `Player.VideoPlayer.PlaybackRateChange` | components/ui/VideoPlayer.tsx:114-121 | element rate and state rate become `r`, and the settings menu closes |
| `Player.VideoPlayer.SkipTime` | components/ui/VideoPlayer.tsx:123-128 | the element time becomes `SkipTarget` of its old time, the skip and the element duration; the state time is untouched |
| `Player.VideoPlayer.ToggleSettings` | components/ui/VideoPlayer.tsx:174 | the settings menu flips, with or without an element |
| `Player.VideoPlayer.OnLoadedMetadata` | components/ui/VideoPlayer.tsx:45-47 | `duration` becomes the element's duration; whether the element and state agree is unchanged |
| `Player.VideoPlayer.OnTimeUpdate` | components/ui/VideoPlayer.tsx:49-52 | `currentTime` becomes the element's time, also in the moment after the element paused itself at the end; whether the element and state agree is unchanged |
| `Player.VideoPlayer.OnEnded` | components/ui/VideoPlayer.tsx:54-57 | fired after the element paused itself, while `isPlaying` may still be true: `isPlaying` becomes false, which restores `Valid()` |
| `Player.VideoPlayer.MouseMove` | components/ui/VideoPlayer.tsx:141-149 | controls show, and the scheduled timer carries the current `isPlaying` |
| `Player.VideoPlayer.HideTimerFired` | components/ui/VideoPlayer.tsx:144-148 | a firing timer hides the controls exactly when its captured `isPlaying` was true |
| `Player.VideoPlayer.MouseLeave` | components/ui/VideoPlayer.tsx:155 | leaving hides the controls while playing; otherwise they stay as they were |
| `Player.VideoPlayer.VolumeSliderValue` | components/ui/VideoPlayer.tsx:273 | the volume slider shows 0 while muted, otherwise the volume; under `Valid()` this is the element volume |
| `Player.VideoPlayer.HighlightedRates` | components/ui/VideoPlayer.tsx:183-190 | the highlighted menu entries are the offered speeds equal to the current one |
| `Player.PlayToEndAndReplay` | components/ui/VideoPlayer.tsx:54-80 | play a loaded video to its end: the state disagrees with the paused element until `ended` clears `isPlaying`, and the next click plays again from time 0 |
| `Player.PlaySilently` | components/ui/VideoPlayer.tsx:141-149 | mount, play, mute, then move the mouse and let the timer fire: the element plays at volume 0, the volume stays 1, the controls are hidden |
| `UserManagement.FilteredUsers` | pages/user-management/index.tsx:95-105 | in input order, exactly the users that pass the search, role and status tests |
| `UserManagement.FilteredUsersCounts` | pages/user-management/index.tsx:95-105 | a passing user appears as often as listed; a failing one does not appear |
| `UserManagement.EmptyQueryMatches` | pages/user-management/index.tsx:96-97 | the empty query matches every user |
| `UserManagement.InitialFiltersShowAll` | pages/user-management/index.tsx:89-91 | the initial filters show the full list unchanged |
| `UserManagement.UnknownStatusShowsNone` | pages/user-management/index.tsx:100-102 | a status other than all/active/inactive matches no one |
| `UserManagement.SelectedRoleIsExact` | pages/user-management/index.tsx:99 | selecting a role shows only users of exactly that role |
| `UserManagement.StatusesPartition` | pages/user-management/index.tsx:100-102 | the active list and the inactive list together hold every user exactly as often as the full list |
| `UserManagement.SearchIgnoresQueryCase` | pages/user-management/index.tsx:96-97 | lowercasing the query does not change what matches |
| `UserManagement.VerbatimOccurrenceMatches` | pages/user-management/index.tsx:96-97 | a query occurring verbatim in the name or the email matches |
| `UserManagement.SelectorsNarrow` | pages/user-management/index.tsx:104 | any role or status selection shows a subsequence of what the search alone shows |
| `UserManagement.ShowsEmptyState` | pages/user-management/index.tsx:305 | the empty-state card shows exactly when no user passes |
| `UserManagement.RoleColor` | pages/user-management/index.tsx:107-120 | the badge classes of each role (distinctness is in `RoleColorsDistinct`) |
| `UserManagement.StatusColor` | pages/user-management/index.tsx:122-124 | the badge classes for active and inactive users (distinctness is in `StatusColorsDistinct`) |
| `UserManagement.RoleColorsDistinct` | pages/user-management/index.tsx:107-120 | the colour switch is total, and each role gets its own badge colour |
| `UserManagement.StatusColorsDistinct` | pages/user-management/index.tsx:122-124 | the status colour depends only on `isActive` and distinguishes the two values |
| `UserManagement.RoleOptionsCoverRoles` | pages/user-management/index.tsx:126-133 | every role has an option, and each option other than "all" is a role value |
| `UserManagement.StatusOptionsRecognised` | pages/user-management/index.tsx:135-139 | each offered status keeps all users, or exactly the active ones, or exactly the inactive ones |
| `UserManagement.RecentActivity` | pages/user-management/index.tsx:285 | at most five entries, the first ones in order, and all of them when there are five or fewer |
| `UserManagement.FixtureInactiveMechanics` | pages/user-management/index.tsx:10-51 | on the mock users, the inactive mechanics are Sarah Wilson alone |
| `VideoTraining.FilteredVideos` | pages/video-training/index.tsx:66-74 | in input order, exactly the videos that pass the search and role tests |
| `VideoTraining.FilteredVideosCounts` | pages/video-training/index.tsx:66-74 | a passing video appears as often as listed; a failing one does not appear |
| `VideoTraining.EmptyQueryMatches` | pages/video-training/index.tsx:67-69 | the empty query matches every video |
| `VideoTraining.InitialFiltersShowAll` | pages/video-training/index.tsx:62-64 | the initial filters show the whole library |
| `VideoTraining.SelectedRoleMeansAssigned` | pages/video-training/index.tsx:71 | selecting a role keeps a video exactly when that role is among its assigned roles |
| `VideoTraining.UnknownRoleShowsNone` | pages/video-training/index.tsx:71 | a selection that is neither "all" nor a role value shows nothing |
| `VideoTraining.VerbatimTagMatches` | pages/video-training/index.tsx:69 | a query occurring verbatim in a tag matches |
| `VideoTraining.SearchIgnoresQueryCase` | pages/video-training/index.tsx:67-69 | lowercasing the query does not change what matches |
| `VideoTraining.RoleNarrows` | pages/video-training/index.tsx:73 | a role selection shows a subsequence of what the search alone shows |
| `VideoTraining.ShowsEmptyState` | pages/video-training/index.tsx:204 | the empty-state card shows exactly when no video passes |
| `VideoTraining.ClickRole` | pages/video-training/index.tsx:115-118 | a click selects the button's value, which is "all" or one of the three offered role values |
| `VideoTraining.Highlighted` | pages/video-training/index.tsx:119-123 | a button is highlighted exactly when its value is the selection |
| `VideoTraining.ClickHighlightsOnlyClicked` | pages/video-training/index.tsx:76-81 | after a click, exactly the clicked button is highlighted |
| `VideoTraining.FixtureRoleButtons` | pages/video-training/index.tsx:10-59 | on the mock videos, "Trainees" hides only the wheel video, and "Managers" hides everything |
| `KnowledgeBase.FilteredArticles` | pages/knowledge-base/index.tsx:70-78 | in input order, exactly the articles that pass the search and category tests |
| `KnowledgeBase.FilteredArticlesCounts` | pages/knowledge-base/index.tsx:70-78 | a passing article appears as often as listed; a failing one does not appear |
| `KnowledgeBase.EmptyQueryMatches` | pages/knowledge-base/index.tsx:71-73 | the empty query matches every article, with or without an excerpt |
| `KnowledgeBase.InitialFiltersShowAll` | pages/knowledge-base/index.tsx:65-67 | the initial filters show every article |
| `KnowledgeBase.MissingExcerptNeverMatches` | pages/knowledge-base/index.tsx:72 | without an excerpt, only the title and the tags can match |
| `KnowledgeBase.VerbatimExcerptMatches` | pages/knowledge-base/index.tsx:72 | a query occurring verbatim in the excerpt matches |
| `KnowledgeBase.SearchIgnoresQueryCase` | pages/knowledge-base/index.tsx:71-73 | lowercasing the query does not change what matches |
| `KnowledgeBase.CategoryNarrows` | pages/knowledge-base/index.tsx:77 | a category selection shows a subsequence of what the search alone shows |
| `KnowledgeBase.ShowsEmptyState` | pages/knowledge-base/index.tsx:198 | the empty-state card shows exactly when no article passes |
| `KnowledgeBase.CategoryButtonValues` | pages/knowledge-base/index.tsx:112-125 | the first button selects "all", and button `i + 1` selects category `i`'s name |
| `KnowledgeBase.CategoryButtonSelects` | pages/knowledge-base/index.tsx:75 | a category's button keeps exactly that category's matching articles; "All" keeps every matching article |
| `KnowledgeBase.MoreTags` | pages/knowledge-base/index.tsx:174-178 | the "+N more" note is present exactly when there are more than three tags |
| `KnowledgeBase.TagsAccountedFor` | pages/knowledge-base/index.tsx:165-178 | the shown tags, `slice(0, 3)`, followed by the hidden ones are all the tags, and N is the number hidden |
| `KnowledgeBase.FixtureCategoryButtons` | pages/knowledge-base/index.tsx:10-62 | on the mock data, "Brakes" shows the brake article and "Wheels" shows the empty state |
| `Sidebar.Navigation` | components/layout/Sidebar.tsx:30-36 | the five entries with their names and hrefs, in order (their properties are in `HrefsApart`) |
| `Sidebar.IsActive` | components/layout/Sidebar.tsx:38-43 | the root entry is active on "/" alone, any other entry on every route starting with its href (see the three lemmas below) |
| `Sidebar.RootActiveOnlyAtRoot` | components/layout/Sidebar.tsx:39-41 | the root entry is active exactly on "/" |
| `Sidebar.ActiveBelowAndBeside` | components/layout/Sidebar.tsx:42 | a non-root entry is active on its route, on sub-routes, and on longer sibling routes that share its prefix |
| `Sidebar.NotActiveOnShorterRoute` | components/layout/Sidebar.tsx:42 | a non-root entry is not active on a shorter route, such as "/" |
| `Sidebar.HrefsApart` | components/layout/Sidebar.tsx:30-36 | the five hrefs are distinct, and no non-root href begins with another |
| `Sidebar.AtMostOneActive` | components/layout/Sidebar.tsx:30-43 | no route highlights two entries |
| `Sidebar.OwnRouteHighlightsOnlyItself` | components/layout/Sidebar.tsx:30-43 | on each entry's own route, that entry and no other is highlighted |
| `Sidebar.Render` | components/layout/Sidebar.tsx:48-84 | the overlay is present exactly when `isOpen`, and entry `i` is highlighted exactly when it is active |
| `Sidebar.RenderHighlightsAtMostOne` | components/layout/Sidebar.tsx:75-84 | a drawn sidebar never highlights two entries |
| `Sidebar.CallsOnClose` | components/layout/Sidebar.tsx:51 | the overlay's click always calls `onClose`; an entry's click calls it only below `DesktopWidth` (lines 85-89); `EntryClickShowsEntry` and `OverlayClickCloses` prove what this does to the drawn sidebar |
| `Sidebar.AfterClick` | components/layout/Sidebar.tsx:85-89 | an entry's link navigates to its href and the sidebar closes exactly when `CallsOnClose` holds; `EntryClickShowsEntry` proves the clicked entry alone is highlighted afterwards and the overlay is gone below 1024, and `OverlayClickCloses` that the overlay click removes the overlay and keeps the highlighting |
| `Sidebar.EntryClickShowsEntry` | components/layout/Sidebar.tsx:75-89 | after a click on an entry, that entry alone is highlighted; in a window narrower than 1024 the overlay is gone, in a wider one it is as before |
| `Sidebar.OverlayClickCloses` | components/layout/Sidebar.tsx:48-53 | a click on the overlay removes it and leaves the highlighted entry as it was |
| `Interfaces.RoleValue` | interfaces/index.ts:19-25 | each role's run-time string is non-empty and never "all" |
| `Interfaces.RoleValueInjective` | interfaces/index.ts:19-25 | distinct roles have distinct strings |
| `Seqs.Filter` | pages/user-management/index.tsx:95 | `filter` keeps a subsequence holding exactly the elements that pass |
| `Seqs.FilterCounts` | pages/video-training/index.tsx:66 | `filter` keeps each passing element as often as it occurs and drops each failing one |
| `Seqs.FilterMonotone` | pages/knowledge-base/index.tsx:70 | a stricter test keeps a subsequence of what a looser test keeps |
| `Seqs.Any` | pages/video-training/index.tsx:69 | `some` holds exactly when some element passes |
| `Seqs.Take` | pages/video-training/index.tsx:162 | `slice(0, n)` keeps the first `min(n, length)` elements; the video and article cards show `Take(tags, 3)` |
| `Text.Contains` | pages/knowledge-base/index.tsx:71 | `includes` holds exactly when the needle occurs at some index |
| `Text.Lower` | pages/knowledge-base/index.tsx:71 | `toLowerCase` keeps the length and lowers each ASCII capital |
| `Text.ContainsLower` | pages/user-management/index.tsx:96 | an occurrence survives lowercasing both strings |
| `Text.StartsWith` | components/layout/Sidebar.tsx:42 | `startsWith`: the prefix is no longer than the string and equals its first characters |
| `Text.PrefixesNest` | components/layout/Sidebar.tsx:42 | two prefixes of one route are prefixes of each other |

## Left out

- Rendering and styling are not modelled: JSX layout, CSS classes, icons and the tiptap editor. The static pages and the header are not modelled either.
- Dates, avatars, URLs and authors are not modelled. Neither are `formatDate`, `formatRelativeTime`, `formatDuration`, `truncateText` and `cn`. `utils/helpers` is not part of this model.
- The `directReports`, `manager` and `salary` fields of `Position` and the `metadata` field of `ActivityLog` are not modelled. No modelled code reads them.
- Fullscreen is not modelled. `toggleFullscreen` calls a browser API.
- Player.VideoPlayer.TogglePlay: the promise returned by `video.play()` is ignored by the code and is not modelled. `Valid()` assumes that `play()` succeeds. A rejected play would leave `isPlaying` true on a paused element.
- Player.VideoPlayer.OnEnded: requires that the element has already paused itself, as the browser does before it fires `ended`.
- A change of the `src` prop is not modelled. The browser then reloads and pauses the element while `isPlaying` stays as it was, so `Valid()` would no longer hold.
- Timing is not modelled: real time, the 3-second delay and how timers interleave with other events. The timer appears only as `HideTimerFired` with the `isPlaying` value it captured.
- The `onTimeUpdate` and `onEnded` callbacks to the parent are not modelled. Re-registering listeners when those props change is not modelled either.
- Floating-point numbers, `parseFloat` of slider strings and a `NaN` duration before the metadata arrives are not modelled. Times, volumes and rates are reals. A new element's duration is 0.
- The browser's range errors when setting `volume` outside [0, 1] are not modelled.
- Text.Lower: lowers ASCII capitals only. Unicode case mapping with `toLowerCase` is not modelled.
- Routing beyond the current `pathname` is not modelled. `window.innerWidth` is a parameter.
- The sidebar's parent is not part of this model. `AfterClick` takes its `onClose` to close the sidebar, which is what the prop's name asks for.
