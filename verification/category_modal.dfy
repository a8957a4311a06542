/**
  The category modal
  (src/app/features/categories/components/category-modal/category-modal.component.ts):
  the parent candidates it offers, the descendant test that keeps a
  re-parent from creating a cycle, the form it opens with and the request
  its submit sends.
 */
module CategoryModal {
  import opened Common
  import opened Text
  import opened CategoryModel
  import opened FormRules

  /** The modal's `mode` input. */
  datatype Mode = Create | Edit

  // ---------------------------------------------------------------------------
  // isDescendant

  /**
    `isDescendant(parent, candidate)`: some child of `parent`, or a node
    below one, carries `candidate`'s id. Only the children are compared, never
    `parent` itself.
   */
  function IsDescendant(parent: Category, candidate: Category): (r: bool)
    ensures |parent.children| == 0 ==> !r
  {
    |parent.children| > 0 && ChildMatches(parent.children, candidate)
  }

  /** The loop over the children, in order, each tested before its subtree. */
  function ChildMatches(cs: seq<Category>, candidate: Category): bool
  {
    if |cs| == 0 then false
    else cs[0].id == candidate.id || IsDescendant(cs[0], candidate) || ChildMatches(cs[1..], candidate)
  }

  /** Some node of the forest `cs` carries the id. */
  ghost predicate IdBelow(cs: seq<Category>, id: int)
  {
    exists p :: IsPath(cs, p) && NodeAt(cs, p).id == id
  }

  lemma {:induction false} ChildMatchesIffBelow(cs: seq<Category>, x: Category)
    ensures ChildMatches(cs, x) <==> IdBelow(cs, x.id)
  {
    if |cs| > 0 {
      var ch := cs[0].children;
      ChildMatchesIffBelow(ch, x);
      ChildMatchesIffBelow(cs[1..], x);
      if ChildMatches(cs, x) {
        if cs[0].id == x.id {
          assert IsPath(cs, [0]) && NodeAt(cs, [0]).id == x.id;
        } else if IsDescendant(cs[0], x) {
          var q :| IsPath(ch, q) && NodeAt(ch, q).id == x.id;
          PathIntoFirst(cs, q);
        } else {
          var q :| IsPath(cs[1..], q) && NodeAt(cs[1..], q).id == x.id;
          PathIntoRest(cs, q);
        }
      }
      if IdBelow(cs, x.id) {
        var p :| IsPath(cs, p) && NodeAt(cs, p).id == x.id;
        if p[0] == 0 && |p| > 1 {
          assert IsPath(ch, p[1..]) && NodeAt(ch, p[1..]) == NodeAt(cs, p);
        } else if p[0] > 0 {
          PathFromRest(cs, p);
        }
      }
    }
  }

  /**
    `isDescendant(parent, x)` holds exactly when some node strictly below
    `parent` has `x`'s id: equality is by id, at any depth.
   */
  lemma IsDescendantIffBelow(parent: Category, x: Category)
    ensures IsDescendant(parent, x) <==> IdBelow(parent.children, x.id)
  {
    ChildMatchesIffBelow(parent.children, x);
  }

  /** Ids are unique across the forest: two paths with the same id coincide. */
  ghost predicate UniqueIds(cs: seq<Category>)
  {
    forall p, q :: IsPath(cs, p) && IsPath(cs, q) && NodeAt(cs, p).id == NodeAt(cs, q).id ==> p == q
  }

  /** In a tree whose ids are unique, a category is not its own descendant. */
  lemma NotOwnDescendant(c: Category)
    requires UniqueIds([c])
    ensures !IsDescendant(c, c)
  {
    forall q | IsPath(c.children, q)
      ensures NodeAt(c.children, q).id != c.id
    {
      PathIntoFirst([c], q);
      assert IsPath([c], [0]) && NodeAt([c], [0]) == c;
      assert [0] + q != [0];
    }
    IsDescendantIffBelow(c, c);
  }

  // ---------------------------------------------------------------------------
  // buildAvailableParents

  /** The filter of `buildAvailableParents`: neither the edited id nor below it. */
  predicate Keep(editing: Category, e: Category)
  {
    e.id != editing.id && !IsDescendant(editing, e)
  }

  /** The entries of `s` the filter keeps, in their order. */
  function ExcludeEditing(s: seq<Category>, editing: Category): (r: seq<Category>)
    ensures forall e :: e in r <==> e in s && Keep(editing, e)
    ensures |r| <= |s|
  {
    if |s| == 0 then []
    else (if Keep(editing, s[0]) then [s[0]] else []) + ExcludeEditing(s[1..], editing)
  }

  /** The filter keeps relative order: it distributes over concatenation. */
  lemma {:induction false} ExcludeEditingAppend(a: seq<Category>, b: seq<Category>, editing: Category)
    ensures ExcludeEditing(a + b, editing) == ExcludeEditing(a, editing) + ExcludeEditing(b, editing)
  {
    if |a| == 0 {
      assert a + b == b;
    } else {
      assert (a + b)[0] == a[0];
      assert (a + b)[1..] == a[1..] + b;
      ExcludeEditingAppend(a[1..], b, editing);
    }
  }

  /**
    The parent candidates: the flattened forest, and in edit mode with a
    category, without that category and its descendants.
   */
  function AvailableParents(mode: Mode, category: Option<Category>, all: seq<Category>): (r: seq<Category>)
    ensures mode == Create || category.None? ==> r == Flatten(all, 0)
    ensures mode == Edit && category.Some? ==>
      forall e :: e in r <==> e in Flatten(all, 0) && e.id != category.value.id && !IsDescendant(category.value, e)
  {
    var flat := Flatten(all, 0);
    if mode == Edit && category.Some? then ExcludeEditing(flat, category.value) else flat
  }

  /**
    In edit mode no candidate is the edited category or any node below it,
    and every other flattened entry stays a candidate.
   */
  lemma EditModeCandidates(all: seq<Category>, editing: Category, e: Category)
    ensures e in AvailableParents(Edit, Some(editing), all) <==>
      e in Flatten(all, 0) && e.id != editing.id && !IdBelow(editing.children, e.id)
  {
    IsDescendantIffBelow(editing, e);
  }

  /**
    The candidates keep the flattened order: filtering the flattened roots
    one by one and concatenating gives the candidate list.
   */
  lemma EditModeKeepsOrder(all: seq<Category>, editing: Category, i: nat)
    requires i <= |all|
    ensures AvailableParents(Edit, Some(editing), all) ==
      ExcludeEditing(Flatten(all[..i], 0), editing) + ExcludeEditing(Flatten(all[i..], 0), editing)
  {
    assert all == all[..i] + all[i..];
    FlattenAppend(all[..i], all[i..], 0);
    ExcludeEditingAppend(Flatten(all[..i], 0), Flatten(all[i..], 0), editing);
  }

  /**
    The worked example of a three-level chain A > B > C: the flattening
    annotates depths 0, 1, 2, and editing B leaves only A as a candidate.
   */
  lemma ChainExample()
    ensures
      var c := Category(3, "C", None, Some(2), 2, true, []);
      var b := Category(2, "B", None, Some(1), 1, true, [c]);
      var a := Category(1, "A", None, None, 0, true, [b]);
      && Flatten([a], 0) == [a.(level := 0), b.(level := 1), c.(level := 2)]
      && AvailableParents(Edit, Some(b), [a]) == [a.(level := 0)]
  {
    var c := Category(3, "C", None, Some(2), 2, true, []);
    var b := Category(2, "B", None, Some(1), 1, true, [c]);
    var a := Category(1, "A", None, None, 0, true, [b]);
    assert Flatten([c], 2) == [c];
    assert Flatten([b], 1) == [b, c];
    assert Flatten([a], 0) == [a, b, c];
    assert [c][1..] == [];
    assert !IsDescendant(c, a) && !ChildMatches([], a);
    assert IsDescendant(b, c);
    assert !IsDescendant(b, a);
    assert ExcludeEditing([c], b) == [];
    assert ExcludeEditing([b, c], b) == [];
    assert [a, b, c][1..] == [b, c] && [b, c][1..] == [c];
  }

  /**
    `flattenCategories` as the source runs it: a loop over the categories
    that pushes each copy onto the list being built and recurses into
    non-empty children. It appends to whatever the list already holds.
   */
  method FlattenCategories(acc: seq<Category>, categories: seq<Category>, level: int) returns (out: seq<Category>)
    ensures out == acc + Flatten(categories, level)
    decreases categories
  {
    out := acc;
    var i := 0;
    while i < |categories|
      invariant 0 <= i <= |categories|
      invariant out == acc + Flatten(categories[..i], level)
    {
      var cat := categories[i];
      out := out + [cat.(level := level)];
      if |cat.children| > 0 {
        out := FlattenCategories(out, cat.children, level + 1);
      }
      FlattenSnoc(categories, i, level);
      i := i + 1;
    }
    assert categories[..|categories|] == categories;
  }

  lemma FlattenSnoc(cs: seq<Category>, i: nat, level: int)
    requires i < |cs|
    ensures Flatten(cs[..i + 1], level) ==
      Flatten(cs[..i], level) + [cs[i].(level := level)] + Flatten(cs[i].children, level + 1)
  {
    assert cs[..i + 1] == cs[..i] + [cs[i]];
    FlattenAppend(cs[..i], [cs[i]], level);
    assert [cs[i]][1..] == [];
  }

  /** The modal's inputs and the list it builds from them. */
  datatype ModalState = ModalState(mode: Mode, category: Option<Category>, allCategories: seq<Category>, availableParents: seq<Category>)

  /**
    `buildAvailableParents`: reset the list, flatten into it, then filter in
    edit mode. The result does not depend on what the list held before, so
    building twice gives the same list as building once.
   */
  method BuildAvailableParents(st: ModalState) returns (st': ModalState)
    ensures st' == st.(availableParents := AvailableParents(st.mode, st.category, st.allCategories))
  {
    var parents := FlattenCategories([], st.allCategories, 0);
    if st.mode == Edit && st.category.Some? {
      var editing := st.category.value;
      var kept := [];
      var i := 0;
      while i < |parents|
        invariant 0 <= i <= |parents|
        invariant kept == ExcludeEditing(parents[..i], editing)
      {
        var cat := parents[i];
        if cat.id != editing.id && !IsDescendant(editing, cat) {
          kept := kept + [cat];
        }
        ExcludeEditingSnoc(parents, i, editing);
        i := i + 1;
      }
      assert parents[..|parents|] == parents;
      parents := kept;
    }
    st' := st.(availableParents := parents);
  }

  lemma ExcludeEditingSnoc(s: seq<Category>, i: nat, editing: Category)
    requires i < |s|
    ensures ExcludeEditing(s[..i + 1], editing) ==
      ExcludeEditing(s[..i], editing) + (if Keep(editing, s[i]) then [s[i]] else [])
  {
    assert s[..i + 1] == s[..i] + [s[i]];
    ExcludeEditingAppend(s[..i], [s[i]], editing);
    assert [s[i]][1..] == [];
  }

  // ---------------------------------------------------------------------------
  // getIndentation and getTitle

  /**
    `getIndentation(level)`: `level` em dashes and one space. The source's
    `repeat` throws for a negative count, which is `None` here.
   */
  function Indentation(level: int): (r: Option<string>)
    ensures r.Some? <==> level >= 0
    ensures r.Some? ==> |r.value| == level + 1 && r.value[level] == ' '
    ensures r.Some? ==> forall i :: 0 <= i < level ==> r.value[i] == '—'
  {
    if level < 0 then None else Some(Repeat('—', level) + " ")
  }

  /**
    The indentation shows the depth: it holds exactly `level` dashes, and
    every candidate the modal lists has a depth for which it is defined.
   */
  lemma IndentationShowsDepth(all: seq<Category>, e: Category)
    requires e in Flatten(all, 0)
    ensures Indentation(e.level).Some?
    ensures Count(Indentation(e.level).value, '—') == e.level
  {
    FlattenLevelsFrom(all, 0);
    CountRepeat('—', e.level);
    CountAppend(Repeat('—', e.level), " ", '—');
    assert Count(" ", '—') == 0 by {
      assert " "[..0] == [];
    }
  }

  /** `getTitle()`; an edit without a category prints `undefined` as its name. */
  function Title(mode: Mode, category: Option<Category>): string
  {
    if mode == Create then
      if category.Some? then "Nueva Subcategoría de \"" + category.value.name + "\"" else "Nueva Categoría"
    else
      "Editar \"" + (if category.Some? then category.value.name else "undefined") + "\""
  }

  /**
    The title tells the modes apart, and names the category it is about: the
    name can be read back from between the quotes.
   */
  lemma TitleShowsModeAndName(mode: Mode, category: Option<Category>)
    ensures (Title(mode, category)[0] == 'E') <==> mode == Edit
    ensures mode == Edit && category.Some? ==>
      Title(mode, category)[8..|Title(mode, category)| - 1] == category.value.name
    ensures mode == Create && category.Some? ==>
      Title(mode, category)[23..|Title(mode, category)| - 1] == category.value.name
  {
  }

  // ---------------------------------------------------------------------------
  // The form: ngOnInit and onSubmit

  /** The modal's form fields. */
  datatype CategoryForm = CategoryForm(name: string, description: string, parentId: Option<int>, isActive: bool)

  const BlankForm := CategoryForm("", "", None, true)
  const NameRules: seq<Rule> := [Required, MinLength(2), MaxLength(100)]
  const DescriptionRules: seq<Rule> := [MaxLength(500)]

  predicate FormValid(f: CategoryForm)
  {
    Accepts(NameRules, Str(f.name), false) && Accepts(DescriptionRules, Str(f.description), false)
  }

  /** The form is valid iff the name has 2 to 100 characters and the description at most 500. */
  lemma FormValidBounds(f: CategoryForm)
    ensures FormValid(f) <==> 2 <= |f.name| <= 100 && |f.description| <= 500
  {
    AcceptsIffAllPass(NameRules, Str(f.name), false);
    AcceptsIffAllPass(DescriptionRules, Str(f.description), false);
    assert Passes(NameRules[0], Str(f.name), false) <==> f.name != "";
    assert Passes(NameRules[1], Str(f.name), false) <==> f.name == "" || |f.name| >= 2;
    assert Passes(NameRules[2], Str(f.name), false) <==> |f.name| <= 100;
    assert Passes(DescriptionRules[0], Str(f.description), false) <==> |f.description| <= 500;
  }

  /** `parentId || null`: a falsy id (absent or 0) becomes `null`. */
  function NonZeroParent(p: Option<int>): (r: Option<int>)
    ensures r.None? <==> p.None? || p == Some(0)
    ensures r.Some? ==> r == p
  {
    if p.Some? && p.value != 0 then p else None
  }

  /**
    The form after `ngOnInit`: an edit loads the category's fields (a falsy
    parent becomes `null`, a missing description ''); creating a sub-category
    pre-selects the given category as parent; otherwise the blank form.
   */
  function InitialForm(mode: Mode, category: Option<Category>): (f: CategoryForm)
    ensures mode == Edit && category.Some? ==>
      f.name == category.value.name && f.isActive == category.value.isActive &&
      f.parentId == NonZeroParent(category.value.parentId)
    ensures mode == Create && category.Some? ==> f == BlankForm.(parentId := Some(category.value.id))
    ensures category.None? ==> f == BlankForm
  {
    match category
    case Some(c) =>
      if mode == Edit then CategoryForm(c.name, TextOr(c.description, ""), NonZeroParent(c.parentId), c.isActive)
      else BlankForm.(parentId := Some(c.id))
    case None => BlankForm
  }

  /** The body the modal sends. */
  datatype CategoryPayload = CategoryPayload(name: string, description: string, parentId: Option<int>, isActive: bool)

  /**
    What `onSubmit` does: an invalid form is only marked touched; a valid
    one becomes a create request, or in edit mode an update of the edited
    category; an edit without a category sends nothing.
   */
  datatype Submission = MarkedInvalid | CreateRequest(payload: CategoryPayload) | UpdateRequest(id: int, payload: CategoryPayload) | NoRequest

  function Submit(mode: Mode, category: Option<Category>, form: CategoryForm): (r: Submission)
    ensures r.MarkedInvalid? <==> !FormValid(form)
    ensures r.CreateRequest? <==> FormValid(form) && mode == Create
    ensures r.UpdateRequest? <==> FormValid(form) && mode.Edit? && category.Some?
    ensures r.UpdateRequest? ==> r.id == category.value.id
    ensures r.CreateRequest? || r.UpdateRequest? ==>
      r.payload == CategoryPayload(form.name, form.description, NonZeroParent(form.parentId), form.isActive)
  {
    if !FormValid(form) then MarkedInvalid
    else
      var payload := CategoryPayload(form.name, form.description, NonZeroParent(form.parentId), form.isActive);
      if mode == Create then CreateRequest(payload)
      else if category.Some? then UpdateRequest(category.value.id, payload)
      else NoRequest
  }

  /** Submitting an unchanged edit form re-sends the category's own fields. */
  lemma UnchangedEditResendsCategory(c: Category)
    requires 2 <= |c.name| <= 100 && |TextOr(c.description, "")| <= 500
    ensures Submit(Edit, Some(c), InitialForm(Edit, Some(c))) ==
      UpdateRequest(c.id, CategoryPayload(c.name, TextOr(c.description, ""), NonZeroParent(c.parentId), c.isActive))
  {
    FormValidBounds(InitialForm(Edit, Some(c)));
  }

  /**
    A new sub-category is created under the pre-selected parent, unless that
    parent's id is 0, which the falsy test turns into a root.
   */
  lemma SubcategoryKeepsParent(parent: Category, name: string)
    requires 2 <= |name| <= 100
    ensures Submit(Create, Some(parent), InitialForm(Create, Some(parent)).(name := name)) ==
      CreateRequest(CategoryPayload(name, "", if parent.id == 0 then None else Some(parent.id), true))
  {
    FormValidBounds(InitialForm(Create, Some(parent)).(name := name));
  }

  // ---------------------------------------------------------------------------
  // The submit round trip: loading, alerts and the save event

  /**
    What the modal shows around a submit: the `loading` flag, whether the
    form was marked touched, the alerts raised and how many times `save`
    was emitted.
   */
  datatype Progress = Progress(loading: bool, touched: bool, alerts: seq<Alert>, saves: nat)

  /**
    `onSubmit`: an invalid form is marked touched and nothing else happens;
    a valid one raises `loading` before the request is chosen, so an edit
    without a category is left loading with no request sent.
   */
  function OnSubmit(p: Progress, mode: Mode, category: Option<Category>, form: CategoryForm): (r: (Progress, Submission))
    ensures !FormValid(form) ==> r.0 == p.(touched := true)
    ensures FormValid(form) ==> r.0 == p.(loading := true)
    ensures r.1 == Submit(mode, category, form)
  {
    if !FormValid(form) then (p.(touched := true), MarkedInvalid)
    else (p.(loading := true), Submit(mode, category, form))
  }

  /** The server's answer to a create or update: success, or an error with an optional `error.message`. */
  datatype Reply = Succeeded | Failed(serverMessage: Option<string>)

  /**
    The `next` and `error` handlers of `createCategory` (in create mode) and
    `updateCategory` (in edit mode): success raises the mode's success alert
    and emits `save`; failure raises the server's message, or the mode's
    fixed text when it is missing or empty, and emits nothing. Both lower
    `loading`.
   */
  function OnReply(p: Progress, mode: Mode, reply: Reply): (r: Progress)
    ensures !r.loading && r.touched == p.touched
    ensures reply.Succeeded? ==> r.saves == p.saves + 1
    ensures reply.Failed? ==> r.saves == p.saves
    ensures reply.Succeeded? && mode == Create ==> r.alerts == p.alerts + [SuccessAlert("Categoría creada exitosamente")]
    ensures reply.Succeeded? && mode == Edit ==> r.alerts == p.alerts + [SuccessAlert("Categoría actualizada exitosamente")]
    ensures reply.Failed? && TruthyText(reply.serverMessage) ==> r.alerts == p.alerts + [ErrorAlert(reply.serverMessage.value)]
    ensures reply.Failed? && !TruthyText(reply.serverMessage) && mode == Create ==>
      r.alerts == p.alerts + [ErrorAlert("Error al crear la categoría")]
    ensures reply.Failed? && !TruthyText(reply.serverMessage) && mode == Edit ==>
      r.alerts == p.alerts + [ErrorAlert("Error al actualizar la categoría")]
  {
    match reply
    case Succeeded =>
      var text := if mode == Create then "Categoría creada exitosamente" else "Categoría actualizada exitosamente";
      p.(loading := false, alerts := p.alerts + [SuccessAlert(text)], saves := p.saves + 1)
    case Failed(message) =>
      var fallback := if mode == Create then "Error al crear la categoría" else "Error al actualizar la categoría";
      p.(loading := false, alerts := p.alerts + [ErrorAlert(TextOr(message, fallback))])
  }

  /**
    A submit that sends a request and gets its reply settles: `loading` is
    down again, exactly one alert was added, and `save` was emitted exactly
    when the server accepted.
   */
  lemma SubmitSettles(p: Progress, mode: Mode, category: Option<Category>, form: CategoryForm, reply: Reply)
    requires Submit(mode, category, form).CreateRequest? || Submit(mode, category, form).UpdateRequest?
    ensures var r := OnReply(OnSubmit(p, mode, category, form).0, mode, reply);
      && !r.loading
      && |r.alerts| == |p.alerts| + 1
      && (r.saves == p.saves + 1 <==> reply.Succeeded?)
      && r.touched == p.touched
  {
  }

  /**
    An edit submitted without a category returns before any request, so no
    reply ever lowers the `loading` flag `onSubmit` raised.
   */
  lemma EditWithoutCategoryStaysLoading(p: Progress, form: CategoryForm)
    requires FormValid(form)
    ensures OnSubmit(p, Edit, None, form) == (p.(loading := true), NoRequest)
  {
  }

  /** An invalid form sends nothing, raises nothing and leaves `loading` as it was. */
  lemma InvalidSubmitOnlyTouches(p: Progress, mode: Mode, category: Option<Category>, form: CategoryForm)
    requires !FormValid(form)
    ensures OnSubmit(p, mode, category, form).1 == MarkedInvalid
    ensures OnSubmit(p, mode, category, form).0.loading == p.loading
    ensures OnSubmit(p, mode, category, form).0.alerts == p.alerts
  {
  }
}
