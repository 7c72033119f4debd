/** The query-argument flattening of the review route: every list value is replaced
    by its first element before the request model is built. */
module IdeReview {
  import opened Wrappers

  /** A query argument: a list of values, or a single value. */
  datatype FormValue<T> = List(items: seq<T>) | Single(value: T)

  predicate EmptyList<T>(a: FormValue<T>) {
    a.List? && |a.items| == 0
  }

  function First<T>(a: FormValue<T>): T
    requires !EmptyList(a)
  {
    if a.List? then a.items[0] else a.value
  }

  const IndexErrorText := "list index out of range"

  /** `flatten_multidict`: the same keys, a list's first element in place of the
      list, other values unchanged; an empty list raises IndexError. */
  function FlattenMultidict<T>(m: map<string, FormValue<T>>): (r: Result<map<string, T>>)
    ensures r.Err? <==> exists k :: k in m && EmptyList(m[k])
    ensures r.Err? ==> r.msg == IndexErrorText
    ensures r.Ok? ==> r.value.Keys == m.Keys
    ensures r.Ok? ==> forall k :: k in m && m[k].List? ==> r.value[k] == m[k].items[0]
    ensures r.Ok? ==> forall k :: k in m && m[k].Single? ==> r.value[k] == m[k].value
  {
    if exists k :: k in m && EmptyList(m[k]) then Err(IndexErrorText)
    else Ok(map k | k in m :: First(m[k]))
  }

  /** Flattening undoes wrapping every value in a one-element list. */
  lemma FlattenSingletons<T>(values: map<string, T>)
    ensures FlattenMultidict(map k | k in values :: List([values[k]])) == Ok(values)
  {
    var m := map k | k in values :: List([values[k]]);
    assert forall k :: k in m ==> !EmptyList(m[k]);
    var r := FlattenMultidict(m);
    assert r.value == values;
  }

  /** A map of single values flattens to the same values. */
  lemma FlattenFlat<T>(values: map<string, T>)
    ensures FlattenMultidict(map k | k in values :: Single(values[k])) == Ok(values)
  {
    var m := map k | k in values :: Single(values[k]);
    assert forall k :: k in m ==> !EmptyList(m[k]);
    var r := FlattenMultidict(m);
    assert r.value == values;
  }
}
