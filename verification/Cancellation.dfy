/** The cancellation token of an agent run and its nested atomic write sections. */
module Cancellation {

  datatype Error = CancellationRequested(reason: string) | OtherError(name: string)

  datatype Outcome = Normal | Raised(error: Error)

  /** What code holding the token may do with it, in any nesting. */
  datatype Act =
    | Cancel(reason: string)       // also stands for a cancel arriving from another thread
    | Check                        // raise_if_cancelled
    | Raise(name: string)          // any exception of the surrounding code
    | Section(body: seq<Act>)      // with token.atomic_write_section(): body
    | Guarded(body: seq<Act>)      // try: body, except: continue

  datatype TokenState = TokenState(cancelled: bool, reason: string, depth: int)

  /** The token afterwards, how the code ended, and how many checks raised on the way. */
  datatype Execution = Execution(token: TokenState, outcome: Outcome, raisedChecks: nat)

  function Run(acts: seq<Act>, t: TokenState): Execution
    decreases acts
  {
    if acts == [] then Execution(t, Normal, 0)
    else
      var first := RunOne(acts[0], t);
      if first.outcome.Raised? then first
      else
        var rest := Run(acts[1..], first.token);
        rest.(raisedChecks := first.raisedChecks + rest.raisedChecks)
  }

  function RunOne(act: Act, t: TokenState): Execution
    decreases act
  {
    match act
    case Cancel(reason) => Execution(t.(cancelled := true, reason := reason), Normal, 0)
    case Check =>
      if t.cancelled && t.depth == 0 then Execution(t, Raised(CancellationRequested(Message(t))), 1)
      else Execution(t, Normal, 0)
    case Raise(name) => Execution(t, Raised(OtherError(name)), 0)
    case Section(body) =>
      var inner := Run(body, t.(depth := t.depth + 1));
      inner.(token := inner.token.(depth := inner.token.depth - 1))
    case Guarded(body) => Run(body, t).(outcome := Normal)
  }

  function Message(t: TokenState): string {
    if t.reason == "" then "cancelled" else t.reason
  }

  /** However sections nest and however they are left, the depth returns to its entry value,
      no check inside a section raises, and a cancelled token stays cancelled. */
  lemma {:induction false} SectionsBalance(acts: seq<Act>, t: TokenState)
    ensures Run(acts, t).token.depth == t.depth
    ensures t.depth > 0 ==> Run(acts, t).raisedChecks == 0
    ensures t.cancelled ==> Run(acts, t).token.cancelled
    decreases acts
  {
    if acts != [] {
      ActBalances(acts[0], t);
      SectionsBalance(acts[1..], RunOne(acts[0], t).token);
    }
  }

  lemma {:induction false} ActBalances(act: Act, t: TokenState)
    ensures RunOne(act, t).token.depth == t.depth
    ensures t.depth > 0 ==> RunOne(act, t).raisedChecks == 0
    ensures t.cancelled ==> RunOne(act, t).token.cancelled
    decreases act
  {
    match act
    case Section(body) => SectionsBalance(body, t.(depth := t.depth + 1));
    case Guarded(body) => SectionsBalance(body, t);
    case _ =>
  }

  /** A section entered from the outermost level never raises a cancellation, and outside all
      sections a check raises exactly when the token is cancelled. */
  lemma {:induction false} ChecksRaiseOnlyOutside(body: seq<Act>, t: TokenState)
    requires t.depth >= 0
    ensures RunOne(Section(body), t).raisedChecks == 0
    ensures RunOne(Check, RunOne(Section(body), t).token).outcome.Raised?
            <==> t.depth == 0 && RunOne(Section(body), t).token.cancelled
  {
    SectionsBalance(body, t.(depth := t.depth + 1));
  }

  class CancellationToken {
    var cancelled: bool
    var reason: string
    var depth: int

    constructor ()
      ensures State() == TokenState(false, "", 0)
    {
      cancelled, reason, depth := false, "", 0;
    }

    function State(): TokenState
      reads this
    {
      TokenState(cancelled, reason, depth)
    }

    method CancelWith(why: string)
      modifies this
      ensures State() == RunOne(Cancel(why), old(State())).token
      ensures cancelled && reason == why && depth == old(depth)
    {
      cancelled, reason := true, why;
    }

    method RaiseIfCancelled() returns (outcome: Outcome)
      ensures outcome == RunOne(Check, State()).outcome
      ensures outcome.Raised? <==> cancelled && depth == 0
      ensures outcome.Raised? ==> outcome.error == CancellationRequested(if reason == "" then "cancelled" else reason)
    {
      if cancelled && depth == 0 {
        return Raised(CancellationRequested(if reason == "" then "cancelled" else reason));
      }
      return Normal;
    }

    /** Runs code against the token in place; the depth is restored on every way out. */
    method Perform(acts: seq<Act>) returns (outcome: Outcome)
      modifies this
      ensures State() == Run(acts, old(State())).token && outcome == Run(acts, old(State())).outcome
      ensures depth == old(depth)
      decreases acts
    {
      SectionsBalance(acts, State());
      outcome := Normal;
      if acts == [] {
        return;
      }
      outcome := PerformOne(acts[0]);
      if outcome.Normal? {
        outcome := Perform(acts[1..]);
      }
    }

    method PerformOne(act: Act) returns (outcome: Outcome)
      modifies this
      ensures State() == RunOne(act, old(State())).token && outcome == RunOne(act, old(State())).outcome
      decreases act
    {
      outcome := Normal;
      match act
      case Cancel(why) => CancelWith(why);
      case Check => outcome := RaiseIfCancelled();
      case Raise(name) => outcome := Raised(OtherError(name));
      case Section(body) =>
        depth := depth + 1;
        outcome := Perform(body);
        depth := depth - 1;
      case Guarded(body) =>
        var swallowed := Perform(body);
    }
  }
}
