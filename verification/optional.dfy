/** The nullable value of the source (`T | null`, an absent property) as a
    datatype, with the few helpers the model needs. */
module Optional {

  datatype Option<+T> = None | Some(value: T) {

    /** The value, or `default` when there is none (the source's `??`). */
    function GetOr(default: T): T
    {
      match this
      case Some(v) => v
      case None => default
    }
  }
}
