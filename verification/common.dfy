/** Small shared vocabulary: optional values and JavaScript truthiness of strings. */
module Common {

  /** `None` stands for a missing key, `undefined` or `null`; `Some(v)` for a present value. */
  datatype Option<+T> = None | Some(value: T) {

    /**
     * The present value, or `default` when there is none: what one key holds after spreading an
     * object that may carry it over one that holds `default` (see `Overrides`).
     */
    function GetOr(default: T): (r: T)
      ensures Some? ==> r == value
      ensures None? ==> r == default
    {
      match this
      case Some(v) => v
      case None => default
    }
  }

  /**
   * `v` is what spreading an object that may carry `supplied` over one holding `prior` leaves
   * in that key: the supplied value when the key is present, the prior one otherwise.
   */
  predicate Overrides<T(==)>(supplied: Option<T>, prior: T, v: T) {
    (supplied.Some? ==> v == supplied.value) && (supplied.None? ==> v == prior)
  }

  /** JavaScript truthiness of an optional string: present and non-empty. */
  predicate Truthy(s: Option<string>) {
    s.Some? && s.value != ""
  }

  /** `s || fallback` for an optional string. */
  function OrElse(s: Option<string>, fallback: string): (r: string)
    ensures Truthy(s) ==> r == s.value
    ensures !Truthy(s) ==> r == fallback
  {
    if Truthy(s) then s.value else fallback
  }
}
