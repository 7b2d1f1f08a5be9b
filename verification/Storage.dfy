/** How the calls of a storage back end may end. */
module Storage {

  /** A storage call ends as asked, or fails without effect, or fails after its effect. */
  datatype Fault = Done | Lost | Torn

  /** The end of every storage call of a run, by its number. */
  type Faults = nat -> Fault

  /** The calls from number `first` on, `calls` of them, end as asked. */
  ghost predicate AllDone(f: Faults, first: nat, calls: nat) {
    forall k :: first <= k < first + calls ==> f(k) == Done
  }
}
