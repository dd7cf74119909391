/** The notification list behind the toast provider: toasts are appended with a default
    duration and removed by id. Ids are drawn at random by the site; here they are a parameter. */
module Toasts {
  import opened Wrappers

  datatype ToastKind = Success | Error | Info | Warning

  /** What a caller passes in: everything but the id. A duration of `None` is an absent one. */
  datatype ToastData = ToastData(kind: ToastKind, title: string, message: Option<string>, duration: Option<int>)

  datatype Toast = Toast(id: string, kind: ToastKind, title: string, message: Option<string>, duration: int)

  const DefaultDuration: int := 5000

  /** `{...toastData, id, duration: toastData.duration || 5000}`. */
  function MakeToast(data: ToastData, id: string): (t: Toast)
    ensures t.id == id && t.kind == data.kind && t.title == data.title && t.message == data.message
    ensures t.duration != 0
    ensures data.duration.Some? && data.duration.value != 0 ==> t.duration == data.duration.value
    ensures data.duration.None? || data.duration.value == 0 ==> t.duration == DefaultDuration
  {
    var duration := if data.duration.Some? && data.duration.value != 0 then data.duration.value else DefaultDuration;
    Toast(id, data.kind, data.title, data.message, duration)
  }

  /** `toasts.filter(t => t.id !== id)`. */
  function Without(toasts: seq<Toast>, id: string): (r: seq<Toast>)
    ensures |r| <= |toasts|
    ensures forall t :: t in r <==> t in toasts && t.id != id
  {
    if toasts == [] then []
    else if toasts[0].id == id then Without(toasts[1..], id)
    else [toasts[0]] + Without(toasts[1..], id)
  }

  predicate HasId(toasts: seq<Toast>, id: string) {
    exists i :: 0 <= i < |toasts| && toasts[i].id == id
  }

  /** Removing distributes over concatenation: the survivors keep their relative order. */
  lemma {:induction false} WithoutConcat(a: seq<Toast>, b: seq<Toast>, id: string)
    ensures Without(a + b, id) == Without(a, id) + Without(b, id)
  {
    if a == [] {
      assert a + b == b;
    } else {
      assert (a + b)[1..] == a[1..] + b;
      WithoutConcat(a[1..], b, id);
    }
  }

  /** Removing an id nobody has changes nothing. */
  lemma {:induction false} WithoutAbsent(toasts: seq<Toast>, id: string)
    requires !HasId(toasts, id)
    ensures Without(toasts, id) == toasts
  {
    if toasts != [] {
      forall i | 0 <= i < |toasts[1..]|
        ensures toasts[1..][i].id != id
      {
        assert toasts[1..][i] == toasts[i + 1];
      }
      WithoutAbsent(toasts[1..], id);
    }
  }

  /** After a removal no toast has that id. */
  lemma WithoutRemovesId(toasts: seq<Toast>, id: string)
    ensures !HasId(Without(toasts, id), id)
  {
    var r := Without(toasts, id);
    forall i | 0 <= i < |r|
      ensures r[i].id != id
    {
      assert r[i] in r;
    }
  }

  /** Removing twice is removing once. */
  lemma RemoveIdempotent(toasts: seq<Toast>, id: string)
    ensures Without(Without(toasts, id), id) == Without(toasts, id)
  {
    WithoutRemovesId(toasts, id);
    WithoutAbsent(Without(toasts, id), id);
  }

  /** Adding a toast under a fresh id and then removing that id gives back the list as it was. */
  lemma AddThenRemove(toasts: seq<Toast>, data: ToastData, id: string)
    requires !HasId(toasts, id)
    ensures Without(toasts + [MakeToast(data, id)], id) == toasts
  {
    WithoutConcat(toasts, [MakeToast(data, id)], id);
    WithoutAbsent(toasts, id);
    assert [MakeToast(data, id)][1..] == [];
  }

  class ToastList {
    var toasts: seq<Toast>

    constructor ()
      ensures toasts == []
    {
      toasts := [];
    }

    /** `addToast`: one new toast at the end; those before it stay as they were, in order. */
    method AddToast(data: ToastData, id: string)
      modifies this
      ensures toasts == old(toasts) + [MakeToast(data, id)]
      ensures |toasts| == |old(toasts)| + 1 && toasts[..|old(toasts)|] == old(toasts)
    {
      toasts := toasts + [MakeToast(data, id)];
      assert toasts[..|old(toasts)|] == old(toasts);
    }

    /** `removeToast`: every toast with this id goes, the rest stay in order. */
    method RemoveToast(id: string)
      modifies this
      ensures toasts == Without(old(toasts), id)
      ensures !HasId(toasts, id)
    {
      WithoutRemovesId(toasts, id);
      toasts := Without(toasts, id);
    }
  }
}
