/** The lifecycle of a call and the table of allowed status changes. */
module CallStatus {

  datatype Status = Uploaded | Queued | Transcribing | Transcribed | Analyzing | Completed | Failed

  predicate CanTransition(from: Status, to: Status) {
    match from
    case Uploaded => to.Queued? || to.Transcribing?
    case Queued => to.Transcribing? || to.Failed?
    case Transcribing => to.Transcribed? || to.Failed?
    case Transcribed => to.Analyzing? || to.Failed?
    case Analyzing => to.Completed? || to.Failed?
    case Failed => to.Queued?
    case Completed => false
  }

  /**
   The table in words: any status at work may fail; a new or failed call may be queued; and
   otherwise a call moves one stage on, skipping the queue only when it is new.
   */
  lemma TransitionsExactly(from: Status, to: Status)
    ensures CanTransition(from, to) <==>
            match to
            case Failed => from in {Queued, Transcribing, Transcribed, Analyzing}
            case Queued => from in {Uploaded, Failed}
            case Uploaded => false
            case _ => from != Failed && Remaining(from) == Remaining(to) + 1
  {
  }

  /** How many status writes a worker at this status still needs to complete the call. */
  function Remaining(s: Status): nat {
    match s
    case Failed => 5
    case Uploaded => 4
    case Queued => 4
    case Transcribing => 3
    case Transcribed => 2
    case Analyzing => 1
    case Completed => 0
  }
}
