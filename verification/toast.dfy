/**
  The toast list (src/app/shared/components/toast/toast.component.ts): an
  ordered list of notifications, appended to by `show` and filtered by
  `remove`, plus the two type-to-class lookups the template uses. The id
  `Date.now().toString()` and the `setTimeout` that later removes the toast
  are outside the model; the id is a parameter of `Show`.
 */
module Toast {
  import opened Common

  /** One toast. `kind` is the `type` string, `duration` in milliseconds. */
  datatype ToastMessage = ToastMessage(id: string, kind: string, title: string, message: string, duration: int)

  /** What a caller passes to `show`: everything but the id, duration optional. */
  datatype ToastRequest = ToastRequest(kind: string, title: string, message: string, duration: Option<int>)

  const DefaultDuration := 3000

  /** `toast.duration || 3000`: a missing or zero duration becomes 3000. */
  function EffectiveDuration(d: Option<int>): (r: int)
    ensures d.Some? && d.value != 0 ==> r == d.value
    ensures d.None? || d.value == 0 ==> r == DefaultDuration
    ensures r != 0
  {
    if d.Some? && d.value != 0 then d.value else DefaultDuration
  }

  /** `show`: append one toast with the given id at the end. */
  function Show(toasts: seq<ToastMessage>, id: string, req: ToastRequest): (r: seq<ToastMessage>)
    ensures |r| == |toasts| + 1
    ensures r[..|toasts|] == toasts
    ensures r[|toasts|] == ToastMessage(id, req.kind, req.title, req.message, EffectiveDuration(req.duration))
  {
    toasts + [ToastMessage(id, req.kind, req.title, req.message, EffectiveDuration(req.duration))]
  }

  /** `remove(id)`: keep the toasts whose id differs, in order. */
  function Remove(toasts: seq<ToastMessage>, id: string): (r: seq<ToastMessage>)
    ensures forall t :: t in r <==> t in toasts && t.id != id
    ensures |r| <= |toasts|
  {
    if |toasts| == 0 then []
    else (if toasts[0].id != id then [toasts[0]] else []) + Remove(toasts[1..], id)
  }

  /** The ids currently shown. */
  function Ids(toasts: seq<ToastMessage>): set<string>
  {
    set t | t in toasts :: t.id
  }

  /** Removing distributes over concatenation, so relative order is kept. */
  lemma {:induction false} RemoveAppend(a: seq<ToastMessage>, b: seq<ToastMessage>, id: string)
    ensures Remove(a + b, id) == Remove(a, id) + Remove(b, id)
    decreases |a|
  {
    if |a| == 0 {
      assert a + b == b;
    } else {
      assert (a + b)[1..] == a[1..] + b;
      RemoveAppend(a[1..], b, id);
    }
  }

  /** Removing an id nobody has leaves the list exactly as it was. */
  lemma {:induction false} RemoveAbsent(toasts: seq<ToastMessage>, id: string)
    requires id !in Ids(toasts)
    ensures Remove(toasts, id) == toasts
    decreases |toasts|
  {
    if |toasts| > 0 {
      assert toasts[0] in toasts;
      assert Ids(toasts[1..]) <= Ids(toasts) by {
        forall x | x in Ids(toasts[1..])
          ensures x in Ids(toasts)
        {
          var t :| t in toasts[1..] && t.id == x;
          assert t in toasts;
        }
      }
      RemoveAbsent(toasts[1..], id);
      assert toasts == [toasts[0]] + toasts[1..];
    }
  }

  /** After removing an id it is gone, and removing it again changes nothing. */
  lemma RemoveIdempotent(toasts: seq<ToastMessage>, id: string)
    ensures id !in Ids(Remove(toasts, id))
    ensures Remove(Remove(toasts, id), id) == Remove(toasts, id)
  {
    RemoveAbsent(Remove(toasts, id), id);
  }

  /**
    The timer's `remove(id)` after `show` with a fresh id restores the list
    as it was before; with an id already in use it also removes the older
    toasts sharing it.
   */
  lemma ShowThenRemove(toasts: seq<ToastMessage>, id: string, req: ToastRequest)
    ensures Remove(Show(toasts, id, req), id) == Remove(toasts, id)
    ensures id !in Ids(toasts) ==> Remove(Show(toasts, id, req), id) == toasts
  {
    var t := ToastMessage(id, req.kind, req.title, req.message, EffectiveDuration(req.duration));
    RemoveAppend(toasts, [t], id);
    assert Remove([t], id) == [];
    if id !in Ids(toasts) {
      RemoveAbsent(toasts, id);
    }
  }

  /** Removals of two ids commute: removing one id never disturbs the toasts of another. */
  lemma {:induction false} RemoveCommutes(toasts: seq<ToastMessage>, a: string, b: string)
    ensures Remove(Remove(toasts, a), b) == Remove(Remove(toasts, b), a)
    decreases |toasts|
  {
    if |toasts| > 0 {
      var h, rest := toasts[0], toasts[1..];
      RemoveCommutes(rest, a, b);
      var ha := if h.id != a then [h] else [];
      var hb := if h.id != b then [h] else [];
      RemoveAppend(ha, Remove(rest, a), b);
      RemoveAppend(hb, Remove(rest, b), a);
      assert Remove(ha, b) == Remove(hb, a) by {
        if h.id != a && h.id != b {
          assert [h][1..] == [];
        }
      }
    }
  }

  // ---------------------------------------------------------------------------
  // Class lookups

  /** The icon table of `getIconClass`. */
  const Icons: map<string, string> := map[
    "success" := "bi-check-circle-fill",
    "error" := "bi-x-circle-fill",
    "warning" := "bi-exclamation-triangle-fill",
    "info" := "bi-info-circle-fill"]

  /** The alert-class table of `getAlertClass`. */
  const AlertClasses: map<string, string> := map[
    "success" := "alert-success",
    "error" := "alert-danger",
    "warning" := "alert-warning",
    "info" := "alert-info"]

  /** `icons[type] || icons['info']`: the entry, or the info entry for an unknown type. */
  function IconClass(kind: string): (r: string)
    ensures kind in Icons ==> r == Icons[kind]
    ensures kind !in Icons ==> r == Icons["info"]
  {
    if kind in Icons && Icons[kind] != "" then Icons[kind] else Icons["info"]
  }

  /** `classes[type] || classes['info']`. */
  function AlertClass(kind: string): (r: string)
    ensures kind in AlertClasses ==> r == AlertClasses[kind]
    ensures kind !in AlertClasses ==> r == AlertClasses["info"]
  {
    if kind in AlertClasses && AlertClasses[kind] != "" then AlertClasses[kind] else AlertClasses["info"]
  }

  /**
    The four known types get four different icons and four different
    alert classes, and the two lookups agree on which types they treat as
    info: a type renders as info in one exactly when it does in the other.
   */
  lemma ClassLookupsAgree(a: string, b: string)
    requires a in Icons && b in Icons && a != b
    ensures IconClass(a) != IconClass(b) && AlertClass(a) != AlertClass(b)
    ensures forall k :: IconClass(k) == IconClass("info") <==> AlertClass(k) == AlertClass("info")
  {
  }
}
