/** `setDefault` from backend-go/algos/general.go. */
module General {
  import opened Values

  /** A Go pointer argument is modelled by what it can be observed as: nil (`None`)
      or the value it points to (`Some`). Reading through it is all the function does,
      so nothing is written through the pointer. A present zero value (for example
      `Limit = 0`) is kept, not replaced by the default. */
  function SetDefault<T>(value: Option<T>, defaultValue: T): (r: T)
    ensures value.None? ==> r == defaultValue
    ensures value.Some? ==> r == value.value
  {
    match value
    case None => defaultValue
    case Some(v) => v
  }

  /** The address of a field is never nil, so `setDefault(&field, d)` is always the field:
      with `&request.Visual` the default `[1, 8]` is never used, even when the request
      carried no visual range (a nil slice, here the empty sequence). */
  lemma FieldAddressNeverDefaults(visual: seq<real>)
    ensures SetDefault(Some(visual), [1.0, 8.0]) == visual
    ensures visual == [] ==> SetDefault(Some(visual), [1.0, 8.0]) != [1.0, 8.0]
  {
  }
}
