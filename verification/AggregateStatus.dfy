/** Change-tracking statuses of an aggregate child and the persistence operation
    they resolve to (domain/aggregate_status.go). */
module AggregateStatus {

  datatype Status = Constructor | Added | Changed | Removed

  datatype Op = Noop | Insert | Update | Delete

  /** The operation depends on where the child came from and where it is now. */
  function OperationOf(original: Status, current: Status): Op {
    if original != Constructor then
      if current != Removed then Insert else Noop
    else
      match current
      case Added => Update
      case Changed => Update
      case Removed => Delete
      case Constructor => Noop
  }
}
