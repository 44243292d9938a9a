/**
 `Application.Run`: `IsRunning = true`, `Initialize()`, then rounds of
 `IsRunning &= PlatformManager.PollEvents(...)` followed by `Update()` while
 running, then `Quit()`. The hooks are the subclass's virtual methods and are
 recorded as steps; the successive `PollEvents` results are the input script.
 */
module RunLoop {
  import opened QuitRequests
  import opened SdlNative
  import opened Sdl3Platform
  import opened Applications

  /** An observable step of `Run`; `UpdateHook` records `IsRunning` as `Update` sees it. */
  datatype Step = InitializeHook | PollEventsCall(waitForEvents: bool) | UpdateHook(isRunning: bool) | QuitHook

  /** The steps of the loop and whether `IsRunning` dropped to false within the script. */
  datatype LoopResult = LoopResult(steps: seq<Step>, stopped: bool)

  /** The `while (IsRunning)` loop over the scripted `PollEvents` results. */
  function Loop(polls: seq<bool>, wait: bool): LoopResult
    decreases |polls|
  {
    if |polls| == 0 then LoopResult([], false)
    else if !polls[0] then LoopResult([PollEventsCall(wait), UpdateHook(false)], true)
    else
      var rest := Loop(polls[1..], wait);
      LoopResult([PollEventsCall(wait), UpdateHook(true)] + rest.steps, rest.stopped)
  }

  /**
   The application afterwards, the steps, and whether `Run` returned: when the
   script runs out while still running, the loop is still going and `Run` has
   not returned.
   */
  datatype RunResult = RunResult(app: Application, steps: seq<Step>, returned: bool)

  function Run(app: Application, polls: seq<bool>): (r: RunResult)
    ensures r.returned <==> false in polls
    ensures r.app == app.(isRunning := !r.returned)
    ensures |r.steps| >= 1 && r.steps[0] == InitializeHook
    ensures r.returned ==> r.steps[|r.steps| - 1] == QuitHook
    ensures !r.returned ==> QuitHook !in r.steps
  {
    var loop := Loop(polls, app.waitForEvents);
    LoopShape(polls, app.waitForEvents);
    RoundsShape(FirstFalse(polls), app.waitForEvents);
    RunResult(app.(isRunning := !loop.stopped),
              [InitializeHook] + loop.steps + (if loop.stopped then [QuitHook] else []),
              loop.stopped)
  }

  // ---------------------------------------------------------------------------
  // Reference shape

  /** Index of the first `PollEvents` that returned false, or `|polls|` if none did. */
  function FirstFalse(polls: seq<bool>): (j: nat)
    ensures j <= |polls|
    ensures forall i :: 0 <= i < j ==> polls[i]
    ensures j < |polls| ==> !polls[j]
    decreases |polls|
  {
    if |polls| == 0 || !polls[0] then 0 else 1 + FirstFalse(polls[1..])
  }

  /** `n` complete rounds in which `PollEvents` kept the application running. */
  function Rounds(n: nat, wait: bool): seq<Step>
    decreases n
  {
    if n == 0 then [] else [PollEventsCall(wait), UpdateHook(true)] + Rounds(n - 1, wait)
  }

  lemma {:induction false} RoundsShape(n: nat, wait: bool)
    ensures |Rounds(n, wait)| == 2 * n
    ensures forall i :: 0 <= i < 2 * n ==>
      Rounds(n, wait)[i] == if i % 2 == 0 then PollEventsCall(wait) else UpdateHook(true)
    decreases n
  {
    if n > 0 {
      RoundsShape(n - 1, wait);
      var r := Rounds(n, wait);
      assert r == [PollEventsCall(wait), UpdateHook(true)] + Rounds(n - 1, wait);
      forall i | 2 <= i < 2 * n
        ensures r[i] == if i % 2 == 0 then PollEventsCall(wait) else UpdateHook(true)
      {
        assert r[i] == Rounds(n - 1, wait)[i - 2];
      }
    }
  }

  /**
   The loop is `FirstFalse(polls)` full rounds, then, if some poll returned
   false, exactly one more poll followed by one `Update` that sees
   `IsRunning == false`.
   */
  lemma {:induction false} LoopShape(polls: seq<bool>, wait: bool)
    ensures var j := FirstFalse(polls);
      && Loop(polls, wait).steps == Rounds(j, wait) + (if j < |polls| then [PollEventsCall(wait), UpdateHook(false)] else [])
      && (Loop(polls, wait).stopped <==> j < |polls|)
      && (Loop(polls, wait).stopped <==> false in polls)
    decreases |polls|
  {
    if |polls| > 0 && polls[0] {
      LoopShape(polls[1..], wait);
      var j := FirstFalse(polls[1..]);
      var tail := if j < |polls[1..]| then [PollEventsCall(wait), UpdateHook(false)] else [];
      assert Loop(polls, wait).steps == [PollEventsCall(wait), UpdateHook(true)] + (Rounds(j, wait) + tail);
      assert polls == [polls[0]] + polls[1..];
    }
  }

  /**
   `Run` in closed form: `Initialize`, the full rounds, and, once a poll returns
   false, one last poll, one last `Update` and `Quit`.
   */
  lemma RunShape(app: Application, polls: seq<bool>)
    ensures var j := FirstFalse(polls); var w := app.waitForEvents;
      Run(app, polls).steps == [InitializeHook] + Rounds(j, w)
        + (if j < |polls| then [PollEventsCall(w), UpdateHook(false), QuitHook] else [])
  {
    var j := FirstFalse(polls);
    var w := app.waitForEvents;
    var loop := Loop(polls, w);
    LoopShape(polls, w);
    assert Run(app, polls).steps == [InitializeHook] + loop.steps + (if loop.stopped then [QuitHook] else []);
    if j < |polls| {
      Regroup([InitializeHook], Rounds(j, w), [PollEventsCall(w), UpdateHook(false)], [QuitHook]);
      assert [PollEventsCall(w), UpdateHook(false)] + [QuitHook] == [PollEventsCall(w), UpdateHook(false), QuitHook];
    } else {
      Regroup([InitializeHook], Rounds(j, w), [], []);
    }
  }

  lemma Regroup<T>(a: seq<T>, b: seq<T>, c: seq<T>, d: seq<T>)
    ensures a + (b + c) + d == a + b + (c + d)
  {
  }

  lemma {:induction false} RoundsCount(n: nat, wait: bool)
    ensures var m := multiset(Rounds(n, wait));
      && m[PollEventsCall(wait)] == n && m[UpdateHook(true)] == n
      && m[InitializeHook] == 0 && m[QuitHook] == 0 && m[UpdateHook(false)] == 0
    decreases n
  {
    if n > 0 {
      RoundsCount(n - 1, wait);
      assert multiset(Rounds(n, wait)) == multiset{PollEventsCall(wait), UpdateHook(true)} + multiset(Rounds(n - 1, wait));
    }
  }

  /**
   Call counts: `Initialize` once; `Quit` once if `Run` returned and never
   otherwise; one `Update` per poll, so with the first `false` at position `j`
   there are `j + 1` polls and updates.
   */
  lemma RunCallCounts(app: Application, polls: seq<bool>)
    ensures var m := multiset(Run(app, polls).steps); var j := FirstFalse(polls); var w := app.waitForEvents;
      && m[InitializeHook] == 1
      && m[QuitHook] == (if j < |polls| then 1 else 0)
      && m[PollEventsCall(w)] == (if j < |polls| then j + 1 else j)
      && m[UpdateHook(true)] + m[UpdateHook(false)] == m[PollEventsCall(w)]
      && m[UpdateHook(false)] == (if j < |polls| then 1 else 0)
  {
    var j := FirstFalse(polls);
    var w := app.waitForEvents;
    RunShape(app, polls);
    RoundsCount(j, w);
    var rs := Rounds(j, w);
    var s := Run(app, polls).steps;
    var tail: seq<Step> := if j < |polls| then [PollEventsCall(w), UpdateHook(false), QuitHook] else [];
    var mt := multiset(tail);
    assert s == [InitializeHook] + rs + tail;
    var m := multiset(s);
    assert m == multiset{InitializeHook} + multiset(rs) + mt;
    assert mt[InitializeHook] == 0;
    assert mt[QuitHook] == mt[UpdateHook(false)] == mt[PollEventsCall(w)] == (if j < |polls| then 1 else 0);
    assert mt[UpdateHook(true)] == 0;
  }

  /** Every `PollEventsCall` in `s` passes `wait` and is directly followed by an `UpdateHook`. */
  predicate PollsPaired(s: seq<Step>, wait: bool) {
    forall i :: 0 <= i < |s| && s[i].PollEventsCall? ==>
      s[i].waitForEvents == wait && i + 1 < |s| && s[i + 1].UpdateHook?
  }

  lemma {:induction false} LoopPairsPollWithUpdate(polls: seq<bool>, wait: bool)
    ensures PollsPaired(Loop(polls, wait).steps, wait)
    decreases |polls|
  {
    if |polls| > 0 && polls[0] {
      var rest := Loop(polls[1..], wait).steps;
      LoopPairsPollWithUpdate(polls[1..], wait);
      assert PollsPaired(rest, wait);
      var l := Loop(polls, wait).steps;
      assert l == [PollEventsCall(wait), UpdateHook(true)] + rest;
      forall i | 2 <= i < |l| && l[i].PollEventsCall?
        ensures l[i].waitForEvents == wait && i + 1 < |l| && l[i + 1].UpdateHook?
      {
        assert l[i] == rest[i - 2];
        assert i - 1 < |rest|;
        assert l[i + 1] == rest[i - 1];
      }
    }
  }

  /**
   Every `PollEvents` is followed by an `Update`, even the one that ended the
   run, and every poll passes the application's `WaitForEvents`.
   */
  lemma UpdateFollowsEveryPoll(app: Application, polls: seq<bool>)
    ensures PollsPaired(Run(app, polls).steps, app.waitForEvents)
  {
    var w := app.waitForEvents;
    var loop := Loop(polls, w);
    LoopPairsPollWithUpdate(polls, w);
    var s := Run(app, polls).steps;
    var l := loop.steps;
    assert PollsPaired(l, w);
    assert s == [InitializeHook] + l + (if loop.stopped then [QuitHook] else []);
    forall i | 0 <= i < |s| && s[i].PollEventsCall?
      ensures s[i].waitForEvents == w && i + 1 < |s| && s[i + 1].UpdateHook?
    {
      if 1 <= i <= |l| {
        assert s[i] == l[i - 1];
        assert i < |l|;
        assert s[i + 1] == l[i];
      }
    }
  }

  /** `Update` sees `IsRunning == false` at most once, and only as the step before `Quit`. */
  lemma FinalUpdateSeesStop(app: Application, polls: seq<bool>)
    ensures var r := Run(app, polls);
      forall i :: 0 <= i < |r.steps| && r.steps[i] == UpdateHook(false) ==>
        r.returned && i == |r.steps| - 2
  {
    var j := FirstFalse(polls);
    var w := app.waitForEvents;
    LoopShape(polls, w);
    RoundsShape(j, w);
    var s := Run(app, polls).steps;
    assert forall i :: 1 <= i <= 2 * j ==> s[i] == Rounds(j, w)[i - 1];
  }

  // ---------------------------------------------------------------------------
  // Running over SDL events

  /** What SDL answers to one `PollEvents` call: the events it hands out, and whether `SDL_WaitEvent` fails after them. */
  datatype EventBatch = EventBatch(events: seq<SdlEvent>, waitError: bool)

  /**
   The results of successive `PollEvents` calls as written, each numbering its
   quit requests on from the previous call. The script ends at the first call
   that does not return: `Run` is then stuck inside it.
   */
  function PollScript(batches: seq<EventBatch>, callback: seq<nat>, handlers: Handlers, k: nat, wait: bool): seq<bool>
    decreases |batches|
  {
    if |batches| == 0 then []
    else match PollEvents(batches[0].events, batches[0].waitError, callback, handlers, k, wait)
      case StillWaiting(_) => []
      case Returned(d) => [d.keepRunning] + PollScript(batches[1..], callback, handlers, d.quitRequests, wait)
  }

  /** `Run` as written, where round `i` is answered by `batches[i]`. */
  function RunWithEvents(app: Application, handlers: Handlers, batches: seq<EventBatch>): RunResult {
    Run(app, PollScript(batches, app.quitCallback, handlers, 0, app.waitForEvents))
  }

  /**
   As written, with `WaitForEvents` set, `Run` never gets past its first poll
   unless `SDL_WaitEvent` fails: `Update` and `Quit` never run, whatever events
   arrive, quit requests included.
   */
  lemma WaitingRunStallsInFirstPoll(app: Application, handlers: Handlers, batches: seq<EventBatch>)
    requires app.waitForEvents && |batches| > 0 && !batches[0].waitError
    ensures RunWithEvents(app, handlers, batches) == RunResult(app.(isRunning := true), [InitializeHook], false)
  {
  }

  /** The results of successive polls as `WaitForEvents` is documented. */
  function PollScriptIntended(batches: seq<seq<SdlEvent>>, callback: seq<nat>, handlers: Handlers, k: nat, wait: bool): (r: seq<bool>)
    ensures |r| == |batches|
    decreases |batches|
  {
    if |batches| == 0 then []
    else
      var d := PollEventsIntended(batches[0], callback, handlers, k, wait);
      [d.keepRunning] + PollScriptIntended(batches[1..], callback, handlers, d.quitRequests, wait)
  }

  /** `Run` with the corrected poll, where round `i` drains `batches[i]`. */
  function RunWithEventsIntended(app: Application, handlers: Handlers, batches: seq<seq<SdlEvent>>): RunResult {
    Run(app, PollScriptIntended(batches, app.quitCallback, handlers, 0, app.waitForEvents))
  }

  function EventsOf(batches: seq<EventBatch>): (r: seq<seq<SdlEvent>>)
    ensures |r| == |batches|
    ensures forall i :: 0 <= i < |batches| ==> r[i] == batches[i].events
  {
    seq(|batches|, i requires 0 <= i < |batches| => batches[i].events)
  }

  lemma {:induction false} PollScriptsAgreeWhenPolling(batches: seq<EventBatch>, callback: seq<nat>, handlers: Handlers, k: nat)
    ensures PollScript(batches, callback, handlers, k, false) == PollScriptIntended(EventsOf(batches), callback, handlers, k, false)
    decreases |batches|
  {
    if |batches| > 0 {
      var d := PollEventsIntended(batches[0].events, callback, handlers, k, false);
      assert EventsOf(batches)[1..] == EventsOf(batches[1..]);
      PollScriptsAgreeWhenPolling(batches[1..], callback, handlers, d.quitRequests);
    }
  }

  /** Without `WaitForEvents`, the default, the program as written runs exactly as intended. */
  lemma AsWrittenRunsAsIntendedWhenPolling(app: Application, handlers: Handlers, batches: seq<EventBatch>)
    requires !app.waitForEvents
    ensures RunWithEvents(app, handlers, batches) == RunWithEventsIntended(app, handlers, EventsOf(batches))
  {
    PollScriptsAgreeWhenPolling(batches, app.quitCallback, handlers, 0);
  }

  /** Quit events in all the batches together. */
  function TotalQuits(batches: seq<seq<SdlEvent>>): nat
    decreases |batches|
  {
    if |batches| == 0 then 0 else QuitCount(batches[0]) + TotalQuits(batches[1..])
  }

  /**
   Round `i` stops the application: it drains a quit event, and the vote on
   the last of its quit requests stays `true`. Requests are numbered across
   rounds from `k`.
   */
  predicate RoundStops(batches: seq<seq<SdlEvent>>, callback: seq<nat>, handlers: Handlers, k: nat, i: nat)
    requires i < |batches|
  {
    QuitCount(batches[i]) > 0 && Invoke(callback, handlers, k + TotalQuits(batches[..i]) + QuitCount(batches[i]) - 1, true)
  }

  lemma {:induction false} PollScriptIntendedRounds(batches: seq<seq<SdlEvent>>, callback: seq<nat>, handlers: Handlers, k: nat, wait: bool)
    ensures forall i :: 0 <= i < |batches| ==>
      (PollScriptIntended(batches, callback, handlers, k, wait)[i] <==> !RoundStops(batches, callback, handlers, k, i))
    decreases |batches|
  {
    if |batches| > 0 {
      var d := PollEventsIntended(batches[0], callback, handlers, k, wait);
      var rest := batches[1..];
      PollScriptIntendedRounds(rest, callback, handlers, d.quitRequests, wait);
      var s := PollScriptIntended(batches, callback, handlers, k, wait);
      forall i | 0 <= i < |batches|
        ensures s[i] <==> !RoundStops(batches, callback, handlers, k, i)
      {
        if i == 0 {
          assert batches[..0] == [];
        } else {
          assert s[i] == PollScriptIntended(rest, callback, handlers, d.quitRequests, wait)[i - 1];
          assert batches[..i][1..] == rest[..i - 1];
          assert TotalQuits(batches[..i]) == QuitCount(batches[0]) + TotalQuits(rest[..i - 1]);
          assert batches[i] == rest[i - 1];
        }
      }
    }
  }

  /**
   Quit negotiation: `Run` returns exactly when some round drains a quit event
   and the subscribed handlers leave the fresh `true` vote of that round's last
   quit request at `true`. A handler can veto some requests and accept later ones.
   */
  lemma QuitNegotiation(app: Application, handlers: Handlers, batches: seq<seq<SdlEvent>>)
    ensures RunWithEventsIntended(app, handlers, batches).returned <==>
      exists i :: 0 <= i < |batches| && RoundStops(batches, app.quitCallback, handlers, 0, i)
  {
    var polls := PollScriptIntended(batches, app.quitCallback, handlers, 0, app.waitForEvents);
    PollScriptIntendedRounds(batches, app.quitCallback, handlers, 0, app.waitForEvents);
    if exists i :: 0 <= i < |batches| && RoundStops(batches, app.quitCallback, handlers, 0, i) {
      var i :| 0 <= i < |batches| && RoundStops(batches, app.quitCallback, handlers, 0, i);
      assert !polls[i];
    }
    if false in polls {
      var i :| 0 <= i < |polls| && !polls[i];
      assert RoundStops(batches, app.quitCallback, handlers, 0, i);
    }
  }

  /** Without subscribers the first quit event ends the run. */
  lemma NoSubscribersQuitOnFirstQuitEvent(app: Application, handlers: Handlers, batches: seq<seq<SdlEvent>>)
    requires app.quitCallback == []
    ensures RunWithEventsIntended(app, handlers, batches).returned <==> exists i :: 0 <= i < |batches| && HasQuit(batches[i])
  {
    QuitNegotiation(app, handlers, batches);
    forall i | 0 <= i < |batches|
      ensures RoundStops(batches, [], handlers, 0, i) <==> HasQuit(batches[i])
    {
      HasQuitIffCounted(batches[i]);
    }
  }

  /**
   A handler that vetoes the first quit request and accepts the next: the first
   round keeps running, the second stops, and `Run` returns after two rounds.
   */
  lemma VetoedRequestCanBeAcceptedLater(app: Application, quit: SdlEvent)
    requires app.quitCallback == [7] && IsQuit(quit)
    ensures var vetoFirst: Handlers := (h, k) => if k == 0 then ClearVote else LeaveVote;
      var w := app.waitForEvents;
      RunWithEventsIntended(app, vetoFirst, [[quit], [quit]])
        == RunResult(app.(isRunning := false),
                     [InitializeHook, PollEventsCall(w), UpdateHook(true), PollEventsCall(w), UpdateHook(false), QuitHook], true)
  {
    var vetoFirst: Handlers := (h, k) => if k == 0 then ClearVote else LeaveVote;
    var polls := PollScriptIntended([[quit], [quit]], [7], vetoFirst, 0, app.waitForEvents);
    assert QuitCount([quit]) == 1 by {
      assert [quit][1..] == [];
    }
    var w := app.waitForEvents;
    assert Invoke([7], vetoFirst, 0, true) == false;
    assert Invoke([7], vetoFirst, 1, true) == true;
    var d0 := PollEventsIntended([quit], [7], vetoFirst, 0, w);
    assert d0 == Drained(true, 1);
    var d1 := PollEventsIntended([quit], [7], vetoFirst, 1, w);
    assert !d1.keepRunning;
    assert [[quit], [quit]][1..] == [[quit]];
    assert polls == [true] + PollScriptIntended([[quit]], [7], vetoFirst, 1, w);
    assert polls == [true, false];
    assert FirstFalse(polls) == 1;
    RunShape(app, polls);
  }
}
