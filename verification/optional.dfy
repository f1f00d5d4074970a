/** A value that may be absent: the model of a JavaScript `null` field or of an
    element that `getElementById` did not find. */
module Optional {

  datatype Option<+T> = None | Some(value: T) {

    /** The value when present, the fallback otherwise (the `a ? a.f : d` idiom). */
    function GetOr(fallback: T): T
    {
      match this
      case Some(v) => v
      case None => fallback
    }
  }
}
