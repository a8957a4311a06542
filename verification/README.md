# Category tree, error interceptor, toasts and settings page — a Dafny model

This project models the client-side logic of an Angular administration
front-end for a commercial-management system. The model covers these parts:

- **Category modal.** It offers candidate parents for a category. The forest
  of categories is flattened in pre-order, with each entry's `level` set to
  its depth. In edit mode the edited category and every node below it are
  filtered out, so a re-parent can never create a cycle. The model also
  covers the form the modal opens with, the request its submit sends, and
  the `loading` flag, alerts and `save` event around the reply.
- **Categories tree view.** This is its UI state: the set of expanded ids,
  the modal and the status filter, and the local transitions after a
  backend reply (status toggle, delete, reload).
- **HTTP error interceptor.** It chooses one message from the shape of a
  failed response, raises it as one alert and rethrows the error.
- **Toast list.** A new toast is appended with a default duration, toasts are
  removed by id, and a notification type is looked up as an icon and a CSS
  class.
- **Settings page.** The validators of its five form groups, the backup-time
  pattern, `getErrorMessage`, the logo file check, and the save flow with
  its error text. The framework's `min` and `max` validators read a value
  with JavaScript's `parseFloat`, which is modelled too.

Each component becomes a record of its state plus pure transition
functions. A backend call becomes an entry appended to a `requests` list. A
call of the alert service becomes an entry appended to an `alerts` list.
Every possible reply is its own transition.

Modules:

| module | file | contents |
|---|---|---|
| `Common` | common.dfy | `Option`, `Alert`, `ApiError`, JavaScript truthiness of strings |
| `Text` | text.dfy | integer-to-decimal, `repeat`, `join`, character counting |
| `JsNumber` | js_number.dfy | JavaScript's `parseFloat` over exact reals |
| `CategoryModel` | category_model.dfy | `Category`, `Flatten`, and pre-order paths as the reference for the flattening |
| `CategoryModal` | category_modal.dfy | `isDescendant`, `buildAvailableParents`, indentation, title, form and submit |
| `CategoriesTree` | categories_tree.dfy | tree-view state and transitions |
| `FormRules` | form_rules.dfy | validators as predicates, the time pattern, the settings rules, `getErrorMessage` |
| `ErrorInterceptor` | error_interceptor.dfy | message selection |
| `Toast` | toast.dfy | toast list and class lookups |
| `SettingsPage` | settings_page.dfy | form groups, logo selection, save flow |

The reference for `Flatten` is independent of it. A node is addressed by
its path of child indices (`IsPath`, `NodeAt`), and `Paths` enumerates the
paths in strict pre-order (`PathBefore`). The flattening is proved to list
exactly the nodes at those paths, in that order, each at its depth.

Three points of the code that are easy to misread, kept as written:

- `loadCategories` replaces the categories and leaves the expanded set as
  it is (categories-tree.component.ts:45-58). `CategoriesLoaded` keeps
  `expanded` unchanged, so ids expanded before a reload stay expanded.
- `isDescendant` compares ids and walks the children of the category object
  passed in, not the loaded tree (category-modal.component.ts:76, 97-106).
  So `IsDescendant` takes that object as its own tree, and two nodes with
  the same id are indistinguishable to it.
- A failed status toggle shows only the fixed `Error al <acción> la
  categoría` (categories-tree.component.ts:155), with neither the server's
  message nor its field errors. Every failed request also passes through
  the interceptor, which raises its own alert; the interceptor is modelled
  separately.

A control's value is `null`, a string, a number (an exact real) or a
boolean. The `min` and `max` validators skip an empty value and otherwise
compare `parseFloat(value)` with the bound. A number reads as itself, text
as its longest numeric prefix (`"20 minutos"` as 20), and a value that holds
no number at all reads as `NaN`, which passes both bounds.

## Model

All source paths are in `src/app/`. Paths below are written in full.

| member | source | states |
|---|---|---|
| CategoryModel.FlattenFollowsPaths | src/app/features/categories/components/category-modal/category-modal.component.ts:85-92 | entry k of the flattening is the node at the k-th pre-order path, with `level` overwritten by that path's depth plus the starting level, whatever `level` the node stored |
| CategoryModel.FlattenLength | src/app/features/categories/components/category-modal/category-modal.component.ts:85-92 | the flattening has exactly one entry per path of the forest |
| CategoryModel.FlattenAtPath | src/app/features/categories/components/category-modal/category-modal.component.ts:85-92 | for every path index k, entry k is the node at the k-th path, re-levelled to its depth |
| CategoryModel.FlattenListsEveryNodeOnce | src/app/features/categories/components/category-modal/category-modal.component.ts:85-92 | every node of the forest is listed, at its depth, at exactly one index |
| CategoryModel.PathsSorted | src/app/features/categories/components/category-modal/category-modal.component.ts:86-90 | the listing order is strict pre-order: a node before its children, siblings in their given order |
| CategoryModel.ParentBeforeDescendants | src/app/features/categories/components/category-modal/category-modal.component.ts:87-89 | a node is listed before each of its descendants |
| CategoryModel.PathsComplete | src/app/features/categories/components/category-modal/category-modal.component.ts:86-90 | every path that leads to a node of the forest is enumerated |
| CategoryModel.FlattenMembership | src/app/features/categories/components/category-modal/category-modal.component.ts:85-92 | an entry is in the flattening iff it is some node of the forest re-levelled to its depth |
| CategoryModel.FlattenAppend | src/app/features/categories/components/category-modal/category-modal.component.ts:86 | flattening a concatenation of root lists concatenates their flattenings |
| CategoryModel.FlattenAroundRoot | src/app/features/categories/components/category-modal/category-modal.component.ts:86-90 | root i is followed directly by its own subtree, between the subtrees of the earlier and the later roots |
| CategoryModel.FlattenLevelsFrom | src/app/features/categories/components/category-modal/category-modal.component.ts:87-89 | no entry has a level below the starting level |
| CategoryModel.FlattenIdsIgnoreLevel | src/app/features/categories/components/category-modal/category-modal.component.ts:87 | the set of ids listed does not depend on the starting level |
| CategoryModal.IsDescendant | src/app/features/categories/components/category-modal/category-modal.component.ts:97-98 | a category without children has no descendants |
| CategoryModal.ChildMatchesIffBelow | src/app/features/categories/components/category-modal/category-modal.component.ts:100-105 | the loop over the children succeeds iff some node in the children's subtrees carries the id |
| CategoryModal.IsDescendantIffBelow | src/app/features/categories/components/category-modal/category-modal.component.ts:97-106 | `isDescendant(p, x)` holds iff some node strictly below `p` has `x`'s id, at any depth |
| CategoryModal.NotOwnDescendant | src/app/features/categories/components/category-modal/category-modal.component.ts:74-76 | with unique ids, a category is never its own descendant |
| CategoryModal.ExcludeEditing | src/app/features/categories/components/category-modal/category-modal.component.ts:72-78 | the filter keeps exactly the entries that are neither the edited id nor below it, and never lengthens the list |
| CategoryModal.ExcludeEditingAppend | src/app/features/categories/components/category-modal/category-modal.component.ts:72-78 | the filter distributes over concatenation, so kept entries stay in their order |
| CategoryModal.AvailableParents | src/app/features/categories/components/category-modal/category-modal.component.ts:66-80 | outside edit mode, or with no category, the candidates are exactly the flattening; in edit mode an entry is a candidate iff it is flattened, has another id and is not below the edited category |
| CategoryModal.EditModeCandidates | src/app/features/categories/components/category-modal/category-modal.component.ts:71-79 | in edit mode the candidates exclude the edited id and every id in its subtree, and keep every other flattened entry |
| CategoryModal.EditModeKeepsOrder | src/app/features/categories/components/category-modal/category-modal.component.ts:68-78 | the candidates are the filtered flattening of the leading roots followed by that of the trailing roots, for every split point |
| CategoryModal.ChainExample | src/app/features/categories/components/category-modal/category-modal.component.ts:66-106 | for the chain A > B > C the flattening has depths 0, 1, 2, and editing B leaves only A |
| CategoryModal.FlattenCategories | src/app/features/categories/components/category-modal/category-modal.component.ts:85-92 | the loop that pushes each copy and recurses into non-empty children appends exactly the flattening to the list it is given |
| CategoryModal.FlattenSnoc | src/app/features/categories/components/category-modal/category-modal.component.ts:86-90 | handling one more root appends that root and its subtree |
| CategoryModal.BuildAvailableParents | src/app/features/categories/components/category-modal/category-modal.component.ts:66-80 | the list built is the candidate list for the modal's mode, category and forest, whatever the list held before; no other field changes |
| CategoryModal.ExcludeEditingSnoc | src/app/features/categories/components/category-modal/category-modal.component.ts:72-78 | filtering one more entry appends it exactly when the filter keeps it |
| CategoryModal.Indentation | src/app/features/categories/components/category-modal/category-modal.component.ts:111-113 | `level` em dashes followed by one space; a negative level, where `repeat` throws, has none |
| CategoryModal.IndentationShowsDepth | src/app/features/categories/components/category-modal/category-modal.component.ts:111-113 | every listed candidate has an indentation, holding exactly `level` dashes |
| CategoryModal.TitleShowsModeAndName | src/app/features/categories/components/category-modal/category-modal.component.ts:208-215 | the title starts with 'E' iff in edit mode, and the category's name can be read back from between the quotes |
| CategoryModal.FormValidBounds | src/app/features/categories/components/category-modal/category-modal.component.ts:36-41 | the form is valid iff the name has 2 to 100 characters and the description at most 500 |
| CategoryModal.NonZeroParent | src/app/features/categories/components/category-modal/category-modal.component.ts:128-131 | a falsy parent id (absent or 0) becomes null; any other id is kept |
| CategoryModal.InitialForm | src/app/features/categories/components/category-modal/category-modal.component.ts:44-61 | an edit loads the category's name, status and parent (0 becomes null); creating under a category pre-selects it as parent; otherwise the blank form |
| CategoryModal.Submit | src/app/features/categories/components/category-modal/category-modal.component.ts:118-165 | an invalid form sends nothing; a valid form is created in create mode and updated under the edited id in edit mode, with a falsy parent sent as null; an edit without a category sends nothing |
| CategoryModal.UnchangedEditResendsCategory | src/app/features/categories/components/category-modal/category-modal.component.ts:44-54 | submitting an untouched valid edit form re-sends the category's own fields |
| CategoryModal.SubcategoryKeepsParent | src/app/features/categories/components/category-modal/category-modal.component.ts:55-59 | a new sub-category is created under the pre-selected parent, or as a root when that parent's id is 0 |
| CategoryModal.OnSubmit | src/app/features/categories/components/category-modal/category-modal.component.ts:118-138 | an invalid form is only marked touched; a valid one raises `loading` and yields the request the form, mode and category call for |
| CategoryModal.OnReply | src/app/features/categories/components/category-modal/category-modal.component.ts:143-181 | every reply lowers `loading`; a success raises the mode's success text and emits `save` once; a failure raises the server's non-empty message, else the mode's fixed text, and emits nothing |
| CategoryModal.SubmitSettles | src/app/features/categories/components/category-modal/category-modal.component.ts:118-181 | a submit that sends a request and gets its reply ends with `loading` down, exactly one new alert, and a `save` emit iff the server accepted |
| CategoryModal.EditWithoutCategoryStaysLoading | src/app/features/categories/components/category-modal/category-modal.component.ts:118-163 | a valid edit submitted without a category sends nothing and leaves `loading` raised |
| CategoryModal.InvalidSubmitOnlyTouches | src/app/features/categories/components/category-modal/category-modal.component.ts:118-122 | an invalid form sends nothing, raises no alert and leaves `loading` as it was |
| CategoriesTree.LoadCategories | src/app/features/categories/components/categories-tree/categories-tree.component.ts:45-47 | loading is marked and one fetch with the current filter is issued; nothing else changes |
| CategoriesTree.Start | src/app/features/categories/components/categories-tree/categories-tree.component.ts:23-40 | the view starts with nothing expanded, the modal closed in create mode, nothing selected, filter 'active', and one fetch of active categories |
| CategoriesTree.CategoriesLoaded | src/app/features/categories/components/categories-tree/categories-tree.component.ts:48-51 | a fetch replaces the forest wholesale and keeps the expanded set |
| CategoriesTree.LoadFailed | src/app/features/categories/components/categories-tree/categories-tree.component.ts:52-56 | a failed fetch keeps the forest and raises one error alert |
| CategoriesTree.OnFilterChange | src/app/features/categories/components/categories-tree/categories-tree.component.ts:63-66 | the filter is stored and a fetch with it is issued; forest and expanded set are untouched |
| CategoriesTree.ToggleExpand | src/app/features/categories/components/categories-tree/categories-tree.component.ts:71-84 | membership of the toggled id flips, and that of every other id is unchanged; nothing but the expanded set changes |
| CategoriesTree.ToggleTwiceRestores | src/app/features/categories/components/categories-tree/categories-tree.component.ts:71-77 | toggling the same id twice restores the state |
| CategoriesTree.TogglesCommute | src/app/features/categories/components/categories-tree/categories-tree.component.ts:71-77 | toggles of two ids give the same state in either order |
| CategoriesTree.OpenCreateModal | src/app/features/categories/components/categories-tree/categories-tree.component.ts:89-93 | create mode, the given parent (or none) selected, modal shown; nothing else changes |
| CategoriesTree.OpenEditModal | src/app/features/categories/components/categories-tree/categories-tree.component.ts:98-102 | edit mode, the category selected, modal shown; nothing else changes |
| CategoriesTree.CloseModal | src/app/features/categories/components/categories-tree/categories-tree.component.ts:107-110 | modal hidden and selection cleared; nothing else changes |
| CategoriesTree.OpenThenCloseOnlyChangesMode | src/app/features/categories/components/categories-tree/categories-tree.component.ts:89-110 | opening then closing the modal equals closing it alone, except for the remembered mode |
| CategoriesTree.OnModalSave | src/app/features/categories/components/categories-tree/categories-tree.component.ts:115-118 | the modal is closed and a fetch with the current filter is issued |
| CategoriesTree.ToggleStatus | src/app/features/categories/components/categories-tree/categories-tree.component.ts:128-141 | a confirmed toggle requests the negation of the current status; a declined one changes nothing |
| CategoriesTree.StatusChangedTextAsWrittenMisspells | src/app/features/categories/components/categories-tree/categories-tree.component.ts:144 | the success text as written reads "activarda" / "desactivarda" |
| CategoriesTree.StatusChangedTextIsParticiple | src/app/features/categories/components/categories-tree/categories-tree.component.ts:129-144 | the corrected success text uses the participle (the infinitive with "r" replaced by "da") and differs from the as-written text |
| CategoriesTree.StatusChanged | src/app/features/categories/components/categories-tree/categories-tree.component.ts:142-151 | after a successful toggle: one success alert with the corrected participle text ("Categoría activada/desactivada exitosamente", see Findings), filter 'all' whatever it was, and a fetch with 'all' |
| CategoriesTree.StatusChangeFailed | src/app/features/categories/components/categories-tree/categories-tree.component.ts:153-156 | a failed toggle raises one alert naming the action and changes nothing else |
| CategoriesTree.ConfirmedToggleShowsAll | src/app/features/categories/components/categories-tree/categories-tree.component.ts:128-151 | a confirmed, successful toggle ends on filter 'all' with the status request followed by the fetch |
| CategoriesTree.DeleteCategory | src/app/features/categories/components/categories-tree/categories-tree.component.ts:176-184 | a confirmed delete requests removal of that id; a declined one changes nothing |
| CategoriesTree.CategoryDeleted | src/app/features/categories/components/categories-tree/categories-tree.component.ts:185-189 | a deletion success raises one alert and fetches again |
| CategoriesTree.DeleteFailed | src/app/features/categories/components/categories-tree/categories-tree.component.ts:190-196 | a failed delete shows the server's message when non-empty, else the generic text, and changes nothing else |
| CategoriesTree.StatusClass | src/app/features/categories/components/categories-tree/categories-tree.component.ts:220-222 | the class is 'status-active' iff the category is active |
| CategoriesTree.LevelClassDistinguishesLevels | src/app/features/categories/components/categories-tree/categories-tree.component.ts:227-229 | the class is `level-` followed by the number; different levels give different classes, and the level reads back |
| ErrorInterceptor.Intercept | src/app/core/interceptors/error.interceptor.ts:48-51 | exactly one error alert with the selected message, and the error is rethrown unchanged |
| ErrorInterceptor.ClientErrorMessage | src/app/core/interceptors/error.interceptor.ts:13-15 | a client-side event yields "Error: " followed by its message |
| ErrorInterceptor.ServerMessageWins | src/app/core/interceptors/error.interceptor.ts:18-19 | a non-empty server message is used verbatim, whatever the errors array and the status |
| ErrorInterceptor.ErrorListJoined | src/app/core/interceptors/error.interceptor.ts:20-21 | otherwise an errors array gives its messages in order joined by ", ": empty array gives "", one entry its message, and k comma-free messages give k-1 commas |
| ErrorInterceptor.StatusOnlyAsLastResort | src/app/core/interceptors/error.interceptor.ts:13-23 | status code and text change the message only when there is no client event, no non-empty message and no errors array |
| ErrorInterceptor.StatusMessageFollowsTable | src/app/core/interceptors/error.interceptor.ts:23-44 | 400, 401, 403, 404, 422 and 500 map to their fixed texts; any other status to "Error <status>: <statusText>" |
| ErrorInterceptor.FixedTextsDistinct | src/app/core/interceptors/error.interceptor.ts:23-41 | the six fixed texts are pairwise different |
| ErrorInterceptor.GenericNeverFixed | src/app/core/interceptors/error.interceptor.ts:42-43 | the generic text for an unlisted status never equals a fixed text |
| ErrorInterceptor.GenericIdentifiesStatus | src/app/core/interceptors/error.interceptor.ts:42-43 | two unlisted statuses give the same generic text only with the same code and the same status text |
| ErrorInterceptor.PlaceholderOnlyFromServer | src/app/core/interceptors/error.interceptor.ts:11-44 | the initial "Ha ocurrido un error" is shown only when the server itself sent it |
| Toast.EffectiveDuration | src/app/shared/components/toast/toast.component.ts:27 | a given non-zero duration is kept; an absent or zero one becomes 3000; the result is never 0 |
| Toast.Show | src/app/shared/components/toast/toast.component.ts:22-30 | exactly one toast is appended at the end with the given id and fields, and the earlier toasts are intact |
| Toast.Remove | src/app/shared/components/toast/toast.component.ts:38-40 | a toast survives iff its id differs; the list never grows |
| Toast.RemoveAppend | src/app/shared/components/toast/toast.component.ts:39 | removal distributes over concatenation, so survivors keep their relative order |
| Toast.RemoveAbsent | src/app/shared/components/toast/toast.component.ts:39 | removing an id no toast has leaves the list unchanged |
| Toast.RemoveIdempotent | src/app/shared/components/toast/toast.component.ts:38-40 | after a removal the id is gone, and removing it again changes nothing |
| Toast.ShowThenRemove | src/app/shared/components/toast/toast.component.ts:22-40 | the timer's removal after a show with a fresh id restores the list; with a reused id it removes the older toasts too |
| Toast.RemoveCommutes | src/app/shared/components/toast/toast.component.ts:38-40 | removals of two ids commute |
| Toast.IconClass | src/app/shared/components/toast/toast.component.ts:42-50 | the four known types get their icon; any other type gets the info icon |
| Toast.AlertClass | src/app/shared/components/toast/toast.component.ts:52-60 | the four known types get their class; any other type gets the info class |
| Toast.ClassLookupsAgree | src/app/shared/components/toast/toast.component.ts:42-60 | known types get pairwise different icons and classes, and a type falls back to info in one lookup iff in the other |
| FormRules.AcceptsIffAllPass | src/app/features/settings/components/settings-page/settings-page.component.ts:74-110 | a control is valid iff each of its validators alone passes its value |
| FormRules.HourPatternMeansHour | src/app/features/settings/components/settings-page/settings-page.component.ts:109 | the hour part of the pattern accepts exactly one or two digits worth at most 23 |
| FormRules.MinutePatternMeansMinute | src/app/features/settings/components/settings-page/settings-page.component.ts:109 | the minute part accepts exactly two digits worth at most 59 |
| FormRules.TimePatternMeansClockTime | src/app/features/settings/components/settings-page/settings-page.component.ts:109 | the backup-time pattern accepts exactly `H:MM` and `HH:MM` with hour 0-23 and minutes 00-59 |
| FormRules.FormattedClockAccepted | src/app/features/settings/components/settings-page/settings-page.component.ts:109 | every zero-padded time of day is accepted, and its hour and minute read back |
| FormRules.BooleanReadsNaN | src/app/features/settings/components/settings-page/settings-page.component.ts:87 | a boolean reads as `parseFloat` of its text, which holds no number |
| FormRules.PercentageBounds | src/app/features/settings/components/settings-page/settings-page.component.ts:87-94 | IVA and maximum discount accept a number iff it lies in [0, 100], fractions such as 12.5 included; `null` is refused |
| FormRules.PercentageTextBounds | src/app/features/settings/components/settings-page/settings-page.component.ts:87-94 | text is accepted iff it is non-empty and `parseFloat` reads from it a number in [0, 100] or no number at all; both fields agree |
| FormRules.PercentageFlagAccepted | src/app/features/settings/components/settings-page/settings-page.component.ts:87-94 | a boolean passes both percentage fields, as it holds no number |
| FormRules.TechnicalBounds | src/app/features/settings/components/settings-page/settings-page.component.ts:99-100 | a number is accepted as session timeout iff it is at least 15, as log retention iff at least 7 |
| FormRules.TechnicalTextBounds | src/app/features/settings/components/settings-page/settings-page.component.ts:99-100 | text is accepted iff it is non-empty and `parseFloat` reads from it neither a number below the bound nor `-Infinity` |
| FormRules.FiveTooShort | src/app/features/settings/components/settings-page/settings-page.component.ts:99 | the text "5" is refused as a session timeout |
| FormRules.DigitsThenTextJudgedByDigits | src/app/features/settings/components/settings-page/settings-page.component.ts:99 | digits followed by text that cannot continue a number are accepted as a session timeout iff the digits are worth at least 15 |
| FormRules.NoNumberPasses | src/app/features/settings/components/settings-page/settings-page.component.ts:99 | text that holds no number ("abc") passes the minimum |
| FormRules.CompanyTextBounds | src/app/features/settings/components/settings-page/settings-page.component.ts:75-78 | RUC accepts exactly 10 to 13 characters, name at least 3, phone at least 7, and none may be empty |
| FormRules.BackupTimeBounds | src/app/features/settings/components/settings-page/settings-page.component.ts:109 | the backup time control accepts exactly the clock times |
| FormRules.ErrorMessage | src/app/features/settings/components/settings-page/settings-page.component.ts:333-338 | the message is empty iff the control is missing, has no errors, or is untouched |
| FormRules.ErrorMessagePrecedence | src/app/features/settings/components/settings-page/settings-page.component.ts:340-372 | a shown message reports the first error in the order required, email, minlength, maxlength, min, max, pattern, else 'Campo inválido' |
| FormRules.ShortNameMessage | src/app/features/settings/components/settings-page/settings-page.component.ts:348-351 | a touched, too-short company name reads "Mínimo 3 caracteres" |
| FormRules.PercentageMessages | src/app/features/settings/components/settings-page/settings-page.component.ts:358-366 | an out-of-range percentage reports the bound it breaks |
| SettingsPage.RequiredOnly | src/app/features/settings/components/settings-page/settings-page.component.ts:84-86 | a control with only the required validator accepts exactly non-empty inputs |
| SettingsPage.NonNegativeBounds | src/app/features/settings/components/settings-page/settings-page.component.ts:92-93 | minimum stock and credit days accept a number iff it is non-negative, fractions included |
| SettingsPage.InitialCompanyInvalid | src/app/features/settings/components/settings-page/settings-page.component.ts:74-80 | the initial company form is invalid |
| SettingsPage.InitialFiscalValid | src/app/features/settings/components/settings-page/settings-page.component.ts:83-88 | the initial fiscal values pass their validators |
| SettingsPage.InitialBusinessValid | src/app/features/settings/components/settings-page/settings-page.component.ts:91-95 | the initial business values pass their validators |
| SettingsPage.InitialTechnicalValid | src/app/features/settings/components/settings-page/settings-page.component.ts:98-103 | the initial technical values pass their validators |
| SettingsPage.InitialBackupValid | src/app/features/settings/components/settings-page/settings-page.component.ts:106-110 | the initial backup values, time "02:00" included, pass their validators |
| SettingsPage.InitialGroupsValidity | src/app/features/settings/components/settings-page/settings-page.component.ts:72-111 | only the company group starts invalid |
| SettingsPage.Start | src/app/features/settings/components/settings-page/settings-page.component.ts:22-36 | the page starts with nothing saving, no file, no preview, no logo, no alerts and no requests |
| SettingsPage.OnFileSelected | src/app/features/settings/components/settings-page/settings-page.component.ts:226-253 | an acceptable file becomes the selection; a rejected one raises one alert and keeps the previous selection; no file changes nothing |
| SettingsPage.LogoChecksInOrder | src/app/features/settings/components/settings-page/settings-page.component.ts:231-242 | the type is checked before the size, and exactly 2 MiB is accepted while one byte more is refused |
| SettingsPage.CancelLogoSelection | src/app/features/settings/components/settings-page/settings-page.component.ts:285-288 | selection and preview are cleared and nothing else changes |
| SettingsPage.SelectThenCancel | src/app/features/settings/components/settings-page/settings-page.component.ts:226-288 | selecting then cancelling leaves only the alerts the selection raised |
| SettingsPage.SaveAll | src/app/features/settings/components/settings-page/settings-page.component.ts:165-180 | with an invalid group one alert and nothing sent; otherwise saving starts and the update is sent |
| SettingsPage.SavedPayloadIgnoresBackup | src/app/features/settings/components/settings-page/settings-page.component.ts:173-178 | the backup group must be valid for a save, but its values never reach the request |
| SettingsPage.InitialSaveRefused | src/app/features/settings/components/settings-page/settings-page.component.ts:166-169 | saving the freshly built page raises the correction alert and sends nothing |
| SettingsPage.SaveErrorTextLines | src/app/features/settings/components/settings-page/settings-page.component.ts:188-197 | a non-empty error list is shown under the header with one line break per error; otherwise the generic text |
| SettingsPage.SaveErrorWithoutField | src/app/features/settings/components/settings-page/settings-page.component.ts:191-194 | an error without a field is labelled 'Campo' |
| SettingsPage.SaveFinishedAsWritten | src/app/features/settings/components/settings-page/settings-page.component.ts:180-202 | the handlers as written: a successful reply raises the saved text, requests the logo upload iff a file is selected and lowers the flag; an unsuccessful reply only lowers the flag; a failure raises the error text and leaves the flag as it was; nothing else changes |
| SettingsPage.SaveFailureKeepsSavingAsWritten | src/app/features/settings/components/settings-page/settings-page.component.ts:187-201 | as written, a failed update leaves the saving flag raised |
| SettingsPage.SaveFinished | src/app/features/settings/components/settings-page/settings-page.component.ts:180-202 | the reply handlers with the flag cleared on every outcome, alerts and requests as written |
| SettingsPage.SaveSettles | src/app/features/settings/components/settings-page/settings-page.component.ts:180-202 | every outcome of a started save clears the flag and raises one alert unless the reply reported no success; the requests sent are the update followed by the logo upload, the upload exactly when the update succeeded with a file selected |
| SettingsPage.LogoUploaded | src/app/features/settings/components/settings-page/settings-page.component.ts:264-273 | a returned URL replaces the logo and clears selection and preview; the flag always goes down |
| SettingsPage.LogoUploadFailed | src/app/features/settings/components/settings-page/settings-page.component.ts:274-278 | a failed upload raises one alert and lowers the flag |
| JsNumber.ParseFloatDigits | src/app/features/settings/components/settings-page/settings-page.component.ts:87 | a non-empty string of digits reads as its decimal value |
| JsNumber.ParseFloatIgnoresTail | src/app/features/settings/components/settings-page/settings-page.component.ts:99 | digits followed by text that starts with no digit, point or exponent mark read as the digits alone |
| JsNumber.ParseFloatDecimal | src/app/features/settings/components/settings-page/settings-page.component.ts:87 | digits, a point and digits (not both runs empty) read as the integer part plus the fraction |
| JsNumber.ParseFloatExponent | src/app/features/settings/components/settings-page/settings-page.component.ts:87 | digits, `e` and digits read as the integer times that power of ten |
| JsNumber.ParseFloatSkipsSpace | src/app/features/settings/components/settings-page/settings-page.component.ts:87 | leading white space never changes the result |
| JsNumber.ParseFloatMinus | src/app/features/settings/components/settings-page/settings-page.component.ts:87 | a leading minus negates the reading of the rest |
| JsNumber.ParseFloatNaN | src/app/features/settings/components/settings-page/settings-page.component.ts:87 | text that after its white space starts with no digit, sign, point or `I` reads as `NaN` |
| Text.NatToStringRoundTrip | src/app/features/categories/components/categories-tree/categories-tree.component.ts:228 | the decimal rendering of a number reads back as that number |
| Text.IntToStringInjective | src/app/features/categories/components/categories-tree/categories-tree.component.ts:228 | different integers render differently |
| Text.JoinSeparatorCount | src/app/features/settings/components/settings-page/settings-page.component.ts:191-193 | joining k parts free of a mark with a separator holding it once yields k-1 marks |

## Left out

- All HTTP traffic is out of the model. The category, settings and HTTP
  services are not modelled. A call becomes a `requests` entry, and each
  reply is a separate transition. Server-side status filtering is not
  modelled.
- The confirmation dialog is the `confirmed` argument of `ToggleStatus`
  and `DeleteCategory`. Its question and title texts are left out, and its
  error path only logs.
- Console logging, `event.stopPropagation()`, router navigation
  (`viewProducts`) and the `FileReader` preview (`logoPreview` is only ever
  cleared here) are left out. They are side effects or asynchronous
  browser calls.
- `Date.now()` ids and the `setTimeout` auto-removal of toasts are left
  out. The id is a parameter of `Show`, and the timer's removal is `Remove`
  (see `ShowThenRemove`).
- Angular's reactive-forms machinery is not modelled. `markAllAsTouched`,
  `patchValue`, `populateForms`, `loadConfiguration`, `hasError`,
  `isFieldValid` and `isFieldInvalid` are left out. Validators are plain
  predicates (`FormRules.Apply`), and `touched` is a field of `Control`.
  The e-mail regular expression's verdict is the given `emailShaped` flag.
- `saveBackupConfiguration` and `uploadLogo`'s early return without a file
  are left out. The first sends the backup group on its own. The second
  cannot be reached from the save flow, which only uploads when a file is
  selected.
- The modal's outputs are not wired to the tree view. `OnReply` counts
  `save` emits in `Progress.saves`, and the tree's answer to one is
  `OnModalSave`. `onCancel` only emits `cancel`, which the tree answers
  with `CloseModal`. `markFormGroupTouched` is the single `touched` flag.
- `Category` fields that no modelled code reads are left out:
  `productCount`, `createdAt`, `updatedAt`, `parent` and `path`.
- Toast.IconClass: looks up only own keys. In JavaScript, `icons[type]` for
  a name on `Object.prototype` (such as `constructor`) yields a truthy
  function instead of the info icon.
- Toast.AlertClass: the same own-key simplification as `IconClass`.
- Toast.EffectiveDuration: durations are integers. The `NaN` case, which
  is falsy in JavaScript and would also become 3000, is not modelled.
- FormRules.CompanyTextBounds: lengths count Unicode scalar values. The
  browser counts UTF-16 code units, which differ for characters outside
  the Basic Multilingual Plane. This holds for every `MinLength` and
  `MaxLength` rule of `FormRules.Apply` and `FormRules.Passes`.
- CategoryModal.FormValidBounds: the 2 to 100 and 500 character bounds
  count Unicode scalar values, not UTF-16 code units. So a name of one
  emoji (two code units) is refused here while the browser accepts it, and
  a name of 100 emoji (200 code units) is accepted here while the browser
  refuses it.
- CategoriesTree.StatusChanged: raises the corrected text "Categoría
  activada/desactivada exitosamente". The code at
  categories-tree.component.ts:144 raises "activarda"/"desactivarda"; the
  text as written is `StatusChangedTextAsWritten` (see Findings).
- CategoriesTree.LevelClassDistinguishesLevels: levels are integers.
  JavaScript's rendering of fractional or huge numbers (exponent notation)
  is not modelled.
- JsNumber.ParseFloat: results are exact reals. IEEE-754 rounding,
  overflow to `Infinity` (as for `1e400`) and underflow to zero are not
  modelled.
- FormRules.PercentageBounds: a number is an exact real. A control holding
  the number `NaN` or an infinity is not representable, and neither is a
  double's rounding. The same holds for `TechnicalBounds` and
  `SettingsPage.NonNegativeBounds`.
- CategoryModal.InitialForm: the contract does not restate the loaded
  description (`description || ''`). The function computes it and
  `UnchangedEditResendsCategory` states it.

## Findings

| source | as written | input that shows it | evidently intended | confidence | as-written member | corrected member |
|---|---|---|---|---|---|---|
| src/app/features/categories/components/categories-tree/categories-tree.component.ts:144 | the success text is built as the infinitive followed by "da" | activating an inactive category gives "Categoría activarda exitosamente"; deactivating gives "Categoría desactivarda exitosamente" | the participle: "Categoría activada exitosamente" / "Categoría desactivada exitosamente" | high; not executed | CategoriesTree.StatusChangedTextAsWrittenMisspells | CategoriesTree.StatusChangedTextIsParticiple |
| src/app/features/settings/components/settings-page/settings-page.component.ts:187-201 | `isSaving` is cleared only in the `complete` handler, and an observable that ends with `error` never calls `complete` | valid forms, then an update answered with HTTP 422: `isSaving` stays true after the error alert | the flag goes down on every outcome, as `uploadLogo` does in both its handlers | medium (depends on the template's use of the flag); not executed | SettingsPage.SaveFailureKeepsSavingAsWritten | SettingsPage.SaveSettles |

The model uses the corrected behaviour. `CategoriesTree.StatusChanged`
raises the participle text, and `SettingsPage.SaveFinished` clears the
flag on every outcome.
