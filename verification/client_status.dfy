/** The client connection status store of
    client/src/javascript/stores/ClientStatusStore.js: a two-state machine
    whose output is whether a status-change event is emitted. */
module ClientStatus {
  import opened Wrappers

  datatype Status = Status(isConnected: bool, errorCount: int)

  /** The constructor's state. */
  const Initial: Status := Status(false, 0)

  datatype Action = ConnectionTestError | ConnectionTestSuccess | OtherAction(actionType: string)

  datatype Transition = Transition(status: Status, emitted: bool)

  /** `handleConnectionTestError`. */
  function HandleError(s: Status): (t: Transition)
    ensures !t.status.isConnected && t.emitted
    ensures t.status.errorCount == s.errorCount
  {
    Transition(s.(isConnected := false), true)
  }

  /** `handleConnectionTestSuccess`. */
  function HandleSuccess(s: Status): (t: Transition)
    ensures t.status.isConnected
    ensures t.emitted <==> !s.isConnected
    ensures t.status.errorCount == s.errorCount
  {
    if !s.isConnected then Transition(s.(isConnected := true), true)
    else Transition(s, false)
  }

  /** The dispatcher callback: the two connection-test actions go to their
      handlers; any other action changes nothing and emits nothing. */
  function Dispatch(s: Status, a: Action): (t: Transition)
    ensures t.status.errorCount == s.errorCount
    ensures a.ConnectionTestError? ==> !t.status.isConnected && t.emitted
    ensures a.ConnectionTestSuccess? ==> t.status.isConnected && (t.emitted <==> !s.isConnected)
    ensures a.OtherAction? ==> t == Transition(s, false)
    ensures t.emitted <==> t.status.isConnected != s.isConnected || a.ConnectionTestError?
  {
    match a
    case ConnectionTestError => HandleError(s)
    case ConnectionTestSuccess => HandleSuccess(s)
    case OtherAction(_) => Transition(s, false)
  }

  /** The outcome of a sequence of actions: the final status and the number
      of change events emitted. */
  datatype Run = Run(status: Status, events: nat)

  function RunActions(s: Status, actions: seq<Action>): Run
    decreases |actions|
  {
    if |actions| == 0 then Run(s, 0)
    else
      var t := Dispatch(s, actions[0]);
      var rest := RunActions(t.status, actions[1..]);
      Run(rest.status, rest.events + (if t.emitted then 1 else 0))
  }

  /** Only actions of other types follow position `i`. */
  predicate OnlyOthersAfter(actions: seq<Action>, i: int)
  {
    forall j :: 0 <= j < |actions| && i < j ==> actions[j].OtherAction?
  }

  /** The last connection-test action of a sequence, if any. */
  function LastTest(actions: seq<Action>): (r: Option<Action>)
    ensures r.None? <==> OnlyOthersAfter(actions, -1)
    ensures r.Some? ==> (!r.value.OtherAction? &&
      exists i :: 0 <= i < |actions| && actions[i] == r.value && OnlyOthersAfter(actions, i))
    decreases |actions|
  {
    if |actions| == 0 then None
    else
      var n := |actions| - 1;
      if actions[n].OtherAction? then
        var r := LastTest(actions[..n]);
        assert forall i :: -1 <= i < n && OnlyOthersAfter(actions[..n], i) ==> OnlyOthersAfter(actions, i);
        assert OnlyOthersAfter(actions, -1) ==> OnlyOthersAfter(actions[..n], -1);
        r
      else
        assert OnlyOthersAfter(actions, n);
        Some(actions[n])
  }

  /** After any sequence of actions the store is connected exactly when the
      last connection test succeeded (or, with no test, when it already was),
      and the error count never changes. */
  lemma {:induction false} RunReflectsLastTest(s: Status, actions: seq<Action>)
    ensures var r := RunActions(s, actions);
      r.status.errorCount == s.errorCount &&
      r.status.isConnected == (if LastTest(actions).None? then s.isConnected
                               else LastTest(actions).value.ConnectionTestSuccess?)
    decreases |actions|
  {
    if |actions| > 0 {
      var n := |actions| - 1;
      var init := actions[..n];
      assert init + [actions[n]] == actions;
      RunAppend(s, init, actions[n]);
      RunReflectsLastTest(s, init);
      assert LastTest(actions) == if actions[n].OtherAction? then LastTest(init) else Some(actions[n]);
    }
  }

  /** Running a sequence and then one more action. */
  lemma {:induction false} RunAppend(s: Status, init: seq<Action>, a: Action)
    ensures var r := RunActions(s, init);
      var t := Dispatch(r.status, a);
      RunActions(s, init + [a]) == Run(t.status, r.events + (if t.emitted then 1 else 0))
    decreases |init|
  {
    if |init| == 0 {
      assert init + [a] == [a];
    } else {
      var t := Dispatch(s, init[0]);
      assert (init + [a])[1..] == init[1..] + [a];
      RunAppend(t.status, init[1..], a);
    }
  }

  /** Repeated successes from any state emit at most once: only the first
      one changes the state. */
  lemma {:induction false} RepeatedSuccessEmitsOnce(s: Status, n: nat)
    ensures var r := RunActions(s, seq(n, _ => ConnectionTestSuccess));
      r.events == (if n > 0 && !s.isConnected then 1 else 0)
  {
    if n > 0 {
      var t := Dispatch(s, ConnectionTestSuccess);
      assert seq(n, _ => ConnectionTestSuccess)[1..] == seq(n - 1, _ => ConnectionTestSuccess);
      SuccessWhileConnectedIsSilent(t.status, n - 1);
    }
  }

  lemma {:induction false} SuccessWhileConnectedIsSilent(s: Status, n: nat)
    requires s.isConnected
    ensures RunActions(s, seq(n, _ => ConnectionTestSuccess)) == Run(s, 0)
  {
    if n > 0 {
      assert seq(n, _ => ConnectionTestSuccess)[1..] == seq(n - 1, _ => ConnectionTestSuccess);
      SuccessWhileConnectedIsSilent(s, n - 1);
    }
  }

  /** The store starts disconnected with no errors counted, so the first of
      any run of successes emits and the rest do not. */
  lemma InitialThenSuccesses(n: nat)
    ensures !Initial.isConnected && Initial.errorCount == 0
    ensures RunActions(Initial, seq(n, _ => ConnectionTestSuccess)).events == (if n > 0 then 1 else 0)
  {
    RepeatedSuccessEmitsOnce(Initial, n);
  }
}
