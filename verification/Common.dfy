// What several of the models need.
module Common {

  /** A value that may be missing. */
  datatype Option<+A> = None | Some(value: A)

  /** Some element of a set. */
  ghost function Pick<A>(s: set<A>): (x: A)
    requires s != {}
    ensures x in s
  {
    var x :| x in s; x
  }
}
