/**
  The categories tree view
  (src/app/features/categories/components/categories-tree/categories-tree.component.ts)
  as a record of its UI state and pure transitions. Backend calls are not
  performed: a transition that calls the backend appends the request to
  `requests`, and each possible reply is a separate transition. Calls to the
  alert service are appended to `alerts`.
 */
module CategoriesTree {
  import opened Common
  import opened Text
  import opened CategoryModel
  import CategoryModal

  /** The status filter `'active' | 'inactive' | 'all'`. */
  datatype StatusFilter = ActiveOnly | InactiveOnly | AllStatuses

  /** The backend calls the view makes. */
  datatype TreeRequest = FetchCategories(status: StatusFilter) | SetStatus(id: int, isActive: bool) | RemoveCategory(id: int)

  datatype TreeState = TreeState(
    categories: seq<Category>,
    expanded: set<int>,
    loading: bool,
    showModal: bool,
    modalMode: CategoryModal.Mode,
    selected: Option<Category>,
    filter: StatusFilter,
    alerts: seq<Alert>,
    requests: seq<TreeRequest>)

  // ---------------------------------------------------------------------------
  // Loading

  /** `loadCategories()`: mark loading and fetch with the current filter. */
  function LoadCategories(s: TreeState): (r: TreeState)
    ensures r.loading && r.requests == s.requests + [FetchCategories(s.filter)]
    ensures r.(loading := s.loading, requests := s.requests) == s
  {
    s.(loading := true, requests := s.requests + [FetchCategories(s.filter)])
  }

  /**
    The view right after construction and `ngOnInit`: nothing expanded, the
    modal closed in create mode with nothing selected, and a fetch of the
    active categories under way.
   */
  function Start(): (r: TreeState)
    ensures r.categories == [] && r.expanded == {} && r.loading
    ensures !r.showModal && r.modalMode == CategoryModal.Create && r.selected.None?
    ensures r.filter == ActiveOnly && r.requests == [FetchCategories(ActiveOnly)] && r.alerts == []
  {
    LoadCategories(TreeState([], {}, false, false, CategoryModal.Create, None, ActiveOnly, [], []))
  }

  /**
    A successful fetch replaces the forest wholesale. The expanded set is
    kept as it was, ids of vanished categories included.
   */
  function CategoriesLoaded(s: TreeState, data: seq<Category>): (r: TreeState)
    ensures r.categories == data && !r.loading
    ensures r.expanded == s.expanded && r.filter == s.filter && r.requests == s.requests && r.alerts == s.alerts
  {
    s.(categories := data, loading := false)
  }

  /** A failed fetch keeps the forest and raises one error alert. */
  function LoadFailed(s: TreeState): (r: TreeState)
    ensures r.categories == s.categories && !r.loading
    ensures r.alerts == s.alerts + [ErrorAlert("Error al cargar categorías")]
  {
    s.(loading := false, alerts := s.alerts + [ErrorAlert("Error al cargar categorías")])
  }

  /** `onFilterChange(status)`: store the filter and fetch again with it. */
  function OnFilterChange(s: TreeState, status: StatusFilter): (r: TreeState)
    ensures r.filter == status && r.loading
    ensures r.requests == s.requests + [FetchCategories(status)]
    ensures r.categories == s.categories && r.expanded == s.expanded
  {
    LoadCategories(s.(filter := status))
  }

  // ---------------------------------------------------------------------------
  // Expand and collapse

  /** `isExpanded(id)`: membership in the expanded set. */
  predicate IsExpanded(s: TreeState, id: int)
  {
    id in s.expanded
  }

  /** `toggleExpand(id)`: flip the membership of `id` and of nothing else. */
  function ToggleExpand(s: TreeState, id: int): (r: TreeState)
    ensures IsExpanded(r, id) <==> !IsExpanded(s, id)
    ensures forall other :: other != id ==> (IsExpanded(r, other) <==> IsExpanded(s, other))
    ensures r.(expanded := s.expanded) == s
  {
    if id in s.expanded then s.(expanded := s.expanded - {id}) else s.(expanded := s.expanded + {id})
  }

  /** Toggling the same id twice restores the original state. */
  lemma ToggleTwiceRestores(s: TreeState, id: int)
    ensures ToggleExpand(ToggleExpand(s, id), id) == s
  {
    var t := ToggleExpand(ToggleExpand(s, id), id);
    assert t.expanded == s.expanded;
  }

  /** Toggles of different ids do not interfere. */
  lemma TogglesCommute(s: TreeState, a: int, b: int)
    ensures ToggleExpand(ToggleExpand(s, a), b) == ToggleExpand(ToggleExpand(s, b), a)
  {
    var x := ToggleExpand(ToggleExpand(s, a), b);
    var y := ToggleExpand(ToggleExpand(s, b), a);
    assert x.expanded == y.expanded;
  }

  // ---------------------------------------------------------------------------
  // The modal

  /** `openCreateModal(parent?)`: create mode, the parent (if any) selected. */
  function OpenCreateModal(s: TreeState, parent: Option<Category>): (r: TreeState)
    ensures r.showModal && r.modalMode == CategoryModal.Create && r.selected == parent
    ensures r.(showModal := s.showModal, modalMode := s.modalMode, selected := s.selected) == s
  {
    s.(modalMode := CategoryModal.Create, selected := parent, showModal := true)
  }

  /** `openEditModal(category)`: edit mode with the category selected. */
  function OpenEditModal(s: TreeState, category: Category): (r: TreeState)
    ensures r.showModal && r.modalMode == CategoryModal.Edit && r.selected == Some(category)
    ensures r.(showModal := s.showModal, modalMode := s.modalMode, selected := s.selected) == s
  {
    s.(modalMode := CategoryModal.Edit, selected := Some(category), showModal := true)
  }

  /** `closeModal()`: hide the modal and drop the selection; the mode stays. */
  function CloseModal(s: TreeState): (r: TreeState)
    ensures !r.showModal && r.selected.None?
    ensures r.(showModal := s.showModal, selected := s.selected) == s
  {
    s.(showModal := false, selected := None)
  }

  /**
    Opening and then closing the modal leaves the view as closing alone
    would, except that the mode the modal was opened in is remembered.
   */
  lemma OpenThenCloseOnlyChangesMode(s: TreeState, c: Category, parent: Option<Category>)
    ensures CloseModal(OpenEditModal(s, c)) == CloseModal(s).(modalMode := CategoryModal.Edit)
    ensures CloseModal(OpenCreateModal(s, parent)) == CloseModal(s).(modalMode := CategoryModal.Create)
  {
  }

  /** `onModalSave()`: close the modal, then reload. */
  function OnModalSave(s: TreeState): (r: TreeState)
    ensures !r.showModal && r.selected.None? && r.loading
    ensures r.requests == s.requests + [FetchCategories(s.filter)]
  {
    LoadCategories(CloseModal(s))
  }

  // ---------------------------------------------------------------------------
  // toggleStatus

  /** The verb the confirmation and the alerts use. */
  function Action(newStatus: bool): string
  {
    if newStatus then "activar" else "desactivar"
  }

  /**
    The user's answer to the confirmation: on yes, request the negation of
    the current status; on no, nothing happens.
   */
  function ToggleStatus(s: TreeState, c: Category, confirmed: bool): (r: TreeState)
    ensures confirmed ==> r.requests == s.requests + [SetStatus(c.id, !c.isActive)]
    ensures !confirmed ==> r == s
    ensures r.(requests := s.requests) == s
  {
    if confirmed then s.(requests := s.requests + [SetStatus(c.id, !c.isActive)]) else s
  }

  /** The success text as the source writes it: the infinitive plus "da". */
  function StatusChangedTextAsWritten(newStatus: bool): string
  {
    "Categoría " + Action(newStatus) + "da exitosamente"
  }

  /** The as-written text glues "da" onto the infinitive: "activarda". */
  lemma StatusChangedTextAsWrittenMisspells()
    ensures StatusChangedTextAsWritten(true) == "Categoría activarda exitosamente"
    ensures StatusChangedTextAsWritten(false) == "Categoría desactivarda exitosamente"
  {
    ActivateTextAsWritten();
    DeactivateTextAsWritten();
  }

  lemma ActivateTextAsWritten()
    ensures StatusChangedTextAsWritten(true) == "Categoría activarda exitosamente"
  {
    assert Action(true) == "activar";
  }

  lemma DeactivateTextAsWritten()
    ensures StatusChangedTextAsWritten(false) == "Categoría desactivarda exitosamente"
  {
    assert Action(false) == "desactivar";
  }

  /** The past participle of the action. */
  function Participle(newStatus: bool): string
  {
    if newStatus then "activada" else "desactivada"
  }

  /** The success text with the participle: "Categoría activada exitosamente". */
  function StatusChangedText(newStatus: bool): string
  {
    "Categoría " + Participle(newStatus) + " exitosamente"
  }

  /**
    The corrected text names the action by its participle, the infinitive
    with its final "r" replaced by "da", and never reads as the as-written
    text.
   */
  lemma StatusChangedTextIsParticiple(newStatus: bool)
    ensures var v := Action(newStatus); Participle(newStatus) == v[..|v| - 1] + "da"
    ensures StatusChangedText(newStatus) != StatusChangedTextAsWritten(newStatus)
  {
    var v := Action(newStatus);
    if newStatus {
      assert v[..|v| - 1] == "activa";
    } else {
      assert v[..|v| - 1] == "desactiva";
    }
    assert |StatusChangedText(newStatus)| + 1 == |StatusChangedTextAsWritten(newStatus)|;
  }

  /**
    The status change succeeded: one success alert, the filter switched to
    all (whatever it was) so the changed category stays visible, and a fetch
    with that filter.
   */
  function StatusChanged(s: TreeState, c: Category): (r: TreeState)
    ensures r.filter == AllStatuses
    ensures r.alerts == s.alerts + [SuccessAlert(StatusChangedText(!c.isActive))]
    ensures r.requests == s.requests + [FetchCategories(AllStatuses)]
    ensures r.categories == s.categories && r.expanded == s.expanded
  {
    LoadCategories(s.(alerts := s.alerts + [SuccessAlert(StatusChangedText(!c.isActive))], filter := AllStatuses))
  }

  /** The status change failed: one error alert naming the action, nothing else. */
  function StatusChangeFailed(s: TreeState, c: Category): (r: TreeState)
    ensures r.alerts == s.alerts + [ErrorAlert("Error al " + Action(!c.isActive) + " la categoría")]
    ensures r.(alerts := s.alerts) == s
  {
    s.(alerts := s.alerts + [ErrorAlert("Error al " + Action(!c.isActive) + " la categoría")])
  }

  /**
    Whatever the filter was, a confirmed and successful toggle ends on the
    'all' filter with the toggled status requested first and the fetch next.
   */
  lemma ConfirmedToggleShowsAll(s: TreeState, c: Category)
    ensures var r := StatusChanged(ToggleStatus(s, c, true), c);
      && r.filter == AllStatuses
      && r.requests == s.requests + [SetStatus(c.id, !c.isActive), FetchCategories(AllStatuses)]
  {
  }

  // ---------------------------------------------------------------------------
  // deleteCategory

  function DeleteCategory(s: TreeState, c: Category, confirmed: bool): (r: TreeState)
    ensures confirmed ==> r.requests == s.requests + [RemoveCategory(c.id)]
    ensures !confirmed ==> r == s
    ensures r.(requests := s.requests) == s
  {
    if confirmed then s.(requests := s.requests + [RemoveCategory(c.id)]) else s
  }

  /** The deletion succeeded: a success alert and a fresh fetch. */
  function CategoryDeleted(s: TreeState): (r: TreeState)
    ensures r.alerts == s.alerts + [SuccessAlert("Categoría eliminada exitosamente")]
    ensures r.requests == s.requests + [FetchCategories(s.filter)]
    ensures r.categories == s.categories
  {
    LoadCategories(s.(alerts := s.alerts + [SuccessAlert("Categoría eliminada exitosamente")]))
  }

  /**
    The deletion failed (a category with children, an id already gone):
    the server's message when it sent a non-empty one, else a generic one.
    The forest is left as it was.
   */
  function DeleteFailed(s: TreeState, serverMessage: Option<string>): (r: TreeState)
    ensures TruthyText(serverMessage) ==> r.alerts == s.alerts + [ErrorAlert(serverMessage.value)]
    ensures !TruthyText(serverMessage) ==> r.alerts == s.alerts + [ErrorAlert("Error al eliminar la categoría")]
    ensures r.(alerts := s.alerts) == s
  {
    s.(alerts := s.alerts + [ErrorAlert(TextOr(serverMessage, "Error al eliminar la categoría"))])
  }

  // ---------------------------------------------------------------------------
  // CSS classes

  /** `getStatusClass(isActive)`. */
  function StatusClass(isActive: bool): (r: string)
    ensures r == "status-active" <==> isActive
  {
    if isActive then "status-active" else "status-inactive"
  }

  /** `getLevelClass(level)`: `level-` followed by the number. */
  function LevelClass(level: int): string
  {
    "level-" + IntToString(level)
  }

  /** Different levels get different classes, and the level reads back. */
  lemma LevelClassDistinguishesLevels(a: int, b: int)
    ensures LevelClass(a)[..6] == "level-"
    ensures LevelClass(a) == LevelClass(b) <==> a == b
    ensures a >= 0 ==> DigitsValue(LevelClass(a)[6..]) == a
  {
    assert LevelClass(a)[6..] == IntToString(a);
    assert LevelClass(b)[6..] == IntToString(b);
    if LevelClass(a) == LevelClass(b) {
      IntToStringInjective(a, b);
    }
    if a >= 0 {
      NatToStringRoundTrip(a);
    }
  }
}
