/** The webhook retry loop. */
module WebhookDelivery {
  import opened Wrappers
  import opened Documents

  /** The answer to one POST: an HTTP status, an error that the loop catches, or any other
      exception, which leaves the loop. */
  datatype Reply = Status(code: int) | Raised(error: string) | Escaped

  predicate Delivered(r: Reply) {
    r.Status? && 200 <= r.code < 300
  }

  /** The loop ends with this reply. */
  predicate Ends(r: Reply) {
    Delivered(r) || r.Escaped?
  }

  function LogRow(attempt: nat, r: Reply): Attempt
    requires !r.Escaped?
  {
    match r
    case Status(code) => Attempt(attempt, Some(code), None)
    case Raised(error) => Attempt(attempt, None, Some(error))
  }

  function Sum(delays: seq<nat>): nat {
    if delays == [] then 0 else Sum(delays[..|delays| - 1]) + delays[|delays| - 1]
  }

  datatype Ending = Success | Exhaustion | Crash

  /** What a delivery adds to the session. */
  datatype Log = Log(attempts: seq<Attempt>, deadLetters: seq<DeadLetter>, audit: seq<Event>)

  const NothingLogged := Log([], [], [])

  /** `replies(n)` is the answer to attempt n, if it is made. Delivery stops at the first
      2xx, at the first exception that escapes, or at the end of the schedule, after having
      slept between its attempts. Unless an exception escaped it has logged attempts 1 to
      the last in order and one closing event, and a dead letter exactly when nothing was
      delivered; beside a living row, that is what the commit adds. An escape rolls
      everything back. */
  method Deliver(schedule: seq<nat>, replies: nat -> Reply) returns (ending: Ending, made: nat, log: Log, slept: nat)
    ensures made <= |schedule|
    ensures forall n | 1 <= n < made ::
              !replies(n).Escaped? && (replies(n).Status? ==> replies(n).code < 200 || replies(n).code > 299)
    ensures match ending
            case Success => made > 0 && replies(made).Status? && 200 <= replies(made).code <= 299
            case Crash => made > 0 && replies(made).Escaped?
            case Exhaustion => made == |schedule| && forall n | 1 <= n <= made :: !Ends(replies(n))
    ensures slept == Sum(schedule[..if made == 0 then 0 else made - 1])
    ensures ending == Crash ==> log == NothingLogged
    ensures ending != Crash ==>
              && |log.attempts| == made
              && (forall i | 0 <= i < made ::
                    match replies(i + 1)
                    case Status(code) => log.attempts[i] == Attempt(i + 1, Some(code), None)
                    case Raised(error) => log.attempts[i] == Attempt(i + 1, None, Some(error))
                    case Escaped => false)
              && log.audit == [if ending == Success then WebhookDelivered else WebhookExhausted]
              && log.deadLetters
                 == if ending == Success then [] else [DeadLetter("WEBHOOK_DELIVERY_FAILED", DlqPending, 0)]
    ensures ending != Crash ==>
              forall c: Cell | c.row.Some? ::
                CommitDelivery(c, log.attempts, ending == Success) ==
                Some(c.(deliveries := c.deliveries + log.attempts, dlq := c.dlq + log.deadLetters,
                        audit := c.audit + log.audit))
  {
    var attempts: seq<Attempt> := [];
    slept := 0;
    for attempt := 1 to |schedule| + 1
      invariant |attempts| == attempt - 1
      invariant forall n | 1 <= n < attempt :: !Ends(replies(n))
      invariant forall i | 0 <= i < attempt - 1 :: attempts[i] == LogRow(i + 1, replies(i + 1))
      invariant slept == Sum(schedule[..if attempt - 1 < |schedule| then attempt - 1
                                        else if attempt == 1 then 0
                                        else attempt - 2])
    {
      var reply := replies(attempt);
      if reply.Escaped? {
        return Crash, attempt, NothingLogged, slept;
      }
      attempts := attempts + [LogRow(attempt, reply)];
      if Delivered(reply) {
        assert forall letters: seq<DeadLetter> :: letters + [] == letters;
        return Success, attempt, Log(attempts, [], [WebhookDelivered]), slept;
      }
      if attempt < |schedule| {
        assert schedule[..attempt][..attempt - 1] == schedule[..attempt - 1];
        slept := slept + schedule[attempt - 1];
      }
    }
    return Exhaustion, |schedule|,
           Log(attempts, [DeadLetter("WEBHOOK_DELIVERY_FAILED", DlqPending, 0)], [WebhookExhausted]), slept;
  }
}
