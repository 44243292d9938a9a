/**
 `CVar<T>`: a named runtime variable with a default, flags gating its setter,
 and an `OnChanged` multicast delegate notified with (old, new).
 */
module ConsoleVariables {
  import opened Common
  import opened CVarFlags
  import Delegates

  /** `changedCallback` holds the identities of the subscribed `ChangedDelegate`s, in order. */
  datatype CVar<T> = CVar(name: string, value: T, defaultValue: T, helpText: string, flags: Flags, changedCallback: seq<nat>)

  /** One call of a subscribed `ChangedDelegate`. */
  datatype Notification<T> = Notification(handler: nat, oldValue: T, newValue: T)

  /** The variable after an assignment and the handler calls it made, in order. */
  datatype Assignment<T> = Assignment(cvar: CVar<T>, notifications: seq<Notification<T>>)

  /** The internal constructor. */
  function New<T>(name: string, defaultValue: T, helpText: Option<string>, flags: Flags): (c: CVar<T>)
    ensures c.name == name && c.flags == flags
    ensures c.value == defaultValue && c.defaultValue == defaultValue
    ensures helpText.Some? ==> c.helpText == helpText.value
    ensures helpText.None? ==> c.helpText == ""
    ensures c.changedCallback == []
  {
    CVar(name, defaultValue, defaultValue, helpText.OrElse(""), flags, [])
  }

  /** `_changedCallback?.Invoke(old, new)`: every subscriber in order; none when null. */
  function Notify<T>(handlers: seq<nat>, oldValue: T, newValue: T): (r: seq<Notification<T>>)
    ensures |r| == |handlers|
    ensures forall i :: 0 <= i < |r| ==> r[i] == Notification(handlers[i], oldValue, newValue)
  {
    seq(|handlers|, i requires 0 <= i < |handlers| => Notification(handlers[i], oldValue, newValue))
  }

  /** The `Value` setter with the bit mask that freezes the variable as a parameter. */
  function Assign<T(==)>(c: CVar<T>, v: T, frozen: Flags): Assignment<T> {
    if HasFlag(c.flags, frozen) || c.value == v then Assignment(c, [])
    else Assignment(c.(value := v), Notify(c.changedCallback, c.value, v))
  }

  /**
   The `Value` setter: a `Constant` variable ignores the write, an equal value
   is ignored, otherwise the subscribers see (old, new) and the value is stored.
   Nothing but `Value` ever changes.
   */
  function SetValue<T(==)>(c: CVar<T>, v: T): (r: Assignment<T>)
    ensures r.cvar == c.(value := r.cvar.value)
    ensures HasFlag(c.flags, Constant) || c.value == v ==> r.cvar == c && r.notifications == []
    ensures !HasFlag(c.flags, Constant) ==> r.cvar.value == v
    ensures !HasFlag(c.flags, Constant) && c.value != v ==>
      |r.notifications| == |c.changedCallback| &&
      forall i :: 0 <= i < |r.notifications| ==> r.notifications[i] == Notification(c.changedCallback[i], c.value, v)
  {
    Assign(c, v, Constant)
  }

  /** The setter as the flags were evidently meant to be numbered. */
  function SetValueIntended<T(==)>(c: CVar<T>, v: T): (r: Assignment<T>)
    ensures r.cvar == c.(value := r.cvar.value)
    ensures HasFlag(c.flags, IntendedConstant) || c.value == v ==> r.cvar == c && r.notifications == []
    ensures !HasFlag(c.flags, IntendedConstant) ==> r.cvar.value == v
  {
    Assign(c, v, IntendedConstant)
  }

  /**
   As written, a variable flagged `None | ArchiveUser` (saved to the user's
   cloud config, nothing else special) can never be changed.
   */
  lemma ArchivedUserVariableIsFrozen<T>(name: string, d: T, v: T)
    requires d != v
    ensures SetValue(New(name, d, Option.None, CVarFlags.None | ArchiveUser), v).cvar.value == d
    ensures SetValueIntended(New(name, d, Option.None, CVarFlags.None | ArchiveUser), v).cvar.value == v
  {
    assert HasFlag(CVarFlags.None | ArchiveUser, Constant);
  }

  /** A second identical assignment neither changes nor notifies. */
  lemma SetValueIdempotent<T>(c: CVar<T>, v: T)
    ensures var once := SetValue(c, v).cvar;
      SetValue(once, v) == Assignment(once, [])
  {
  }

  /** `ReadOnly` only guards the console path: game code can still set the value. */
  lemma ReadOnlyDoesNotGateSetter<T>(c: CVar<T>, v: T)
    requires HasFlag(c.flags, ReadOnly) && !HasFlag(c.flags, Constant)
    ensures SetValue(c, v).cvar.value == v
  {
  }

  // ---------------------------------------------------------------------------
  // A sequence of assignments

  /**
   The variable after a run of assignments and the notifications they made:
   one round per assignment that called any handler, each round the handler
   calls of that assignment in order.
   */
  datatype History<T> = History(cvar: CVar<T>, rounds: seq<seq<Notification<T>>>)

  /** Assigns `vs` in order, collecting the notifications of every assignment. */
  function SetAll<T(==)>(c: CVar<T>, vs: seq<T>): History<T>
    decreases |vs|
  {
    if |vs| == 0 then History(c, [])
    else
      var prefix := SetAll(c, vs[..|vs| - 1]);
      var a := SetValue(prefix.cvar, vs[|vs| - 1]);
      History(a.cvar, prefix.rounds + if |a.notifications| > 0 then [a.notifications] else [])
  }

  /** A change of value as one handler was told about it. */
  datatype Change<T> = Change(oldValue: T, newValue: T)

  /** What the handler in position `i` of the invocation list was told, round by round. */
  function SeenBy<T>(rounds: seq<seq<Notification<T>>>, i: nat): (r: seq<Change<T>>)
    requires forall k :: 0 <= k < |rounds| ==> i < |rounds[k]|
    ensures |r| == |rounds|
    ensures forall k :: 0 <= k < |rounds| ==> r[k] == Change(rounds[k][i].oldValue, rounds[k][i].newValue)
    decreases |rounds|
  {
    if |rounds| == 0 then []
    else
      var last := rounds[|rounds| - 1][i];
      SeenBy(rounds[..|rounds| - 1], i) + [Change(last.oldValue, last.newValue)]
  }

  /** The changes chain from the initial to the final value, each a real change. */
  predicate Chains<T(==)>(start: T, changes: seq<Change<T>>, final: T) {
    && (|changes| == 0 ==> start == final)
    && (|changes| > 0 ==> changes[0].oldValue == start && changes[|changes| - 1].newValue == final)
    && (forall i :: 0 <= i < |changes| ==> changes[i].oldValue != changes[i].newValue)
    && (forall i :: 0 < i < |changes| ==> changes[i - 1].newValue == changes[i].oldValue)
  }

  lemma ChainsExtend<T>(start: T, changes: seq<Change<T>>, middle: T, final: T)
    requires Chains(start, changes, middle) && middle != final
    ensures Chains(start, changes + [Change(middle, final)], final)
  {
  }

  /** Every round calls the whole invocation list in order, each handler with the same (old, new). */
  predicate RoundsCallEveryone<T(==)>(rounds: seq<seq<Notification<T>>>, handlers: seq<nat>) {
    forall k :: 0 <= k < |rounds| ==>
      && |rounds[k]| == |handlers| > 0
      && forall i :: 0 <= i < |handlers| ==>
           rounds[k][i] == Notification(handlers[i], rounds[k][0].oldValue, rounds[k][0].newValue)
  }

  /**
   Over any run of assignments the notifications tell the whole story: every
   subscriber is called in every round, and what each one is told reports a
   real change, starts where its previous notification ended, and leads from
   the value before to the value after. Name, default, help text, flags and
   subscribers never change.
   */
  lemma {:induction false} NotificationsChain<T>(c: CVar<T>, vs: seq<T>)
    ensures var h := SetAll(c, vs);
      && h.cvar == c.(value := h.cvar.value)
      && RoundsCallEveryone(h.rounds, c.changedCallback)
      && forall i :: 0 <= i < |c.changedCallback| ==> Chains(c.value, SeenBy(h.rounds, i), h.cvar.value)
    decreases |vs|
  {
    if |vs| > 0 {
      var cb := c.changedCallback;
      var p := SetAll(c, vs[..|vs| - 1]);
      NotificationsChain(c, vs[..|vs| - 1]);
      var v := vs[|vs| - 1];
      var a := SetValue(p.cvar, v);
      var h := SetAll(c, vs);
      assert h == History(a.cvar, p.rounds + if |a.notifications| > 0 then [a.notifications] else []);
      if |a.notifications| > 0 {
        assert a.notifications == Notify(cb, p.cvar.value, v);
        assert h.rounds[..|h.rounds| - 1] == p.rounds;
        forall i | 0 <= i < |cb|
          ensures Chains(c.value, SeenBy(h.rounds, i), h.cvar.value)
        {
          assert SeenBy(h.rounds, i) == SeenBy(p.rounds, i) + [Change(p.cvar.value, v)];
          ChainsExtend(c.value, SeenBy(p.rounds, i), p.cvar.value, v);
        }
      } else {
        assert h.rounds == p.rounds;
        assert |cb| > 0 ==> h.cvar.value == p.cvar.value;
      }
    }
  }

  /** A `Constant` variable keeps its value and notifies nobody, whatever is assigned. */
  lemma {:induction false} ConstantNeverChanges<T>(c: CVar<T>, vs: seq<T>)
    requires HasFlag(c.flags, Constant)
    ensures SetAll(c, vs) == History(c, [])
    decreases |vs|
  {
    if |vs| > 0 {
      ConstantNeverChanges(c, vs[..|vs| - 1]);
    }
  }

  // ---------------------------------------------------------------------------
  // Console path and subscriptions

  /** What `TryParseAndSet` returned and the assignment it made, if any. */
  datatype ParseAndSet<T> = ParseAndSet(ok: bool, assignment: Assignment<T>)

  /**
   `TryParseAndSet`: refused on `ReadOnly`, refused when `T.TryParse` fails,
   otherwise the parsed value goes through the `Value` setter and the answer is
   `true`, whether or not the setter kept it.
   */
  function TryParseAndSet<T(==)>(c: CVar<T>, text: string, parse: string -> Option<T>): (r: ParseAndSet<T>)
    ensures r.ok <==> !HasFlag(c.flags, ReadOnly) && parse(text).Some?
    ensures !r.ok ==> r.assignment == Assignment(c, [])
    ensures r.ok ==> r.assignment == SetValue(c, parse(text).value)
  {
    if HasFlag(c.flags, ReadOnly) then ParseAndSet(false, Assignment(c, []))
    else match parse(text)
      case Some(v) => ParseAndSet(true, SetValue(c, v))
      case None => ParseAndSet(false, Assignment(c, []))
  }

  /** A `Constant` variable is not `ReadOnly`, so a parsable string reports success but changes nothing. */
  lemma ConstantReportsSuccessWithoutChange<T>(c: CVar<T>, text: string, parse: string -> Option<T>)
    requires c.flags == Constant && parse(text).Some?
    ensures TryParseAndSet(c, text, parse).ok
    ensures TryParseAndSet(c, text, parse).assignment == Assignment(c, [])
  {
    assert !HasFlag(Constant, ReadOnly);
  }

  /** `OnChanged += h`. */
  function AddOnChanged<T>(c: CVar<T>, h: nat): (r: CVar<T>)
    ensures r.changedCallback == c.changedCallback + [h]
    ensures r == c.(changedCallback := r.changedCallback)
  {
    c.(changedCallback := Delegates.Combine(c.changedCallback, h))
  }

  /** `OnChanged -= h`, with the null guard. */
  function RemoveOnChanged<T>(c: CVar<T>, h: nat): (r: CVar<T>)
    ensures h !in c.changedCallback ==> r == c
    ensures multiset(r.changedCallback) == multiset(c.changedCallback) - multiset{h}
    ensures r == c.(changedCallback := r.changedCallback)
  {
    c.(changedCallback := Delegates.RemoveIfSubscribed(c.changedCallback, h))
  }

  /** A handler subscribed and then unsubscribed is no longer notified. */
  lemma UnsubscribedHandlerIsNotNotified<T>(c: CVar<T>, h: nat, v: T)
    requires h !in c.changedCallback
    ensures var n := SetValue(RemoveOnChanged(AddOnChanged(c, h), h), v).notifications;
      forall i :: 0 <= i < |n| ==> n[i].handler != h
  {
    Delegates.RemoveUndoesCombine(c.changedCallback, h);
  }
}
