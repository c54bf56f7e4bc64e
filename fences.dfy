/**
 * The fence-event handler of the awareness demo, as pure functions.
 *
 * `Step` gives what one delivered broadcast does to the receiver's single
 * player slot (`mPlayer`), which calls it makes on the media player and which
 * notification it shows; `Run` folds it over a sequence of deliveries. The
 * class `Receiver.FenceReceiver` performs the same handler statement by
 * statement and is proved equal to `Step`.
 */
module Fences {
  import opened Wrappers

  /** BuildConfig.APPLICATION_ID, the package the demo is built as. */
  const ApplicationId: string := "com.goodcodeforfun.awarenessdemo"
  /** The only broadcast action the receiver accepts. */
  const FenceReceiverAction: string := ApplicationId + ".FENCE_RECEIVER_ACTION"
  const StartFenceKey: string := "start_fence_key"
  const StopFenceKey: string := "stop_fence_key"

  /** FenceState.getCurrentState(): TRUE, FALSE or any other value (UNKNOWN). */
  datatype TriState = FenceTrue | FenceFalse | FenceUnknown

  /** A delivered broadcast: the intent's action and the fence state extracted from it. */
  datatype Event = Event(action: Option<string>, key: Option<string>, state: TriState)

  /** A player held in `mPlayer`; `id` tells apart the objects MediaPlayer.create returned. */
  datatype Phase = Created | Started
  datatype Player = Player(id: nat, phase: Phase)

  /** The receiver's state: its player slot and the identity the next created player gets. */
  datatype ReceiverState = ReceiverState(player: Option<Player>, nextId: nat)

  /** A call the handler makes on the media-player library. */
  datatype PlayerCall =
    | Create(id: nat)       // MediaPlayer.create returned a new player
    | CreateFailed          // MediaPlayer.create returned null
    | Prepare(id: nat)
    | Start(id: nat)
    | Stop(id: nat)
    | Reset(id: nat)

  /** The toast shown at the end of the handler; its text may be null. */
  datatype Notification = Silent | Shown(text: Option<string>)

  /** What one delivery does; `crashed` is the NullPointerException of `mPlayer.start()`. */
  datatype Outcome = Outcome(state: ReceiverState, calls: seq<PlayerCall>, notification: Notification, crashed: bool)

  /** One delivery together with what MediaPlayer.create would return if it is called. */
  datatype Delivery = Delivery(event: Event, createSucceeds: bool)

  /** What a sequence of deliveries does, up to and including the first crash. */
  datatype Trace = Trace(state: ReceiverState, calls: seq<PlayerCall>, notifications: seq<Option<string>>, crashed: bool)

  const Initial: ReceiverState := ReceiverState(None, 0)

  /** TextUtils.equals: equality of two possibly-null strings. */
  function TextEquals(a: Option<string>, b: Option<string>): (r: bool)
    ensures r <==> a == b
  {
    match (a, b)
    case (None, None) => true
    case (Some(x), Some(y)) => x == y
    case _ => false
  }

  /** The action guard at the head of onReceive. */
  predicate Accepted(ev: Event) {
    TextEquals(Some(FenceReceiverAction), ev.action)
  }

  /** The switch on the fence value: only TRUE sets `started`, every other value leaves it false. */
  function IsStarted(s: TriState): (started: bool)
    ensures started <==> s == FenceTrue
  {
    match s
    case FenceTrue => true
    case FenceFalse => false
    case FenceUnknown => false
  }

  /** The text the key chain leaves in `fenceStateStr`. */
  function Label(key: Option<string>): (text: Option<string>)
    ensures key == Some(StartFenceKey) ==> text == Some("NOT ACTIVE")
    ensures key == Some(StopFenceKey) ==> text == Some("ACTIVE")
    ensures text.Some? <==> key == Some(StartFenceKey) || key == Some(StopFenceKey)
  {
    if TextEquals(key, Some(StartFenceKey)) then Some("NOT ACTIVE")
    else if TextEquals(key, Some(StopFenceKey)) then Some("ACTIVE")
    else None
  }

  /** The player-id a call is made on, if any. */
  function Handle(c: PlayerCall): Option<nat> {
    match c
    case CreateFailed => None
    case Create(id) => Some(id)
    case Prepare(id) => Some(id)
    case Start(id) => Some(id)
    case Stop(id) => Some(id)
    case Reset(id) => Some(id)
  }

  /**
   * Lazy creation and preparation: a held player is kept and prepared again;
   * an empty slot is filled by MediaPlayer.create when it succeeds, and a
   * player is prepared only if the slot is then filled.
   */
  function Acquire(st: ReceiverState, createSucceeds: bool): (r: (ReceiverState, seq<PlayerCall>))
    ensures r.0.player.Some? <==> st.player.Some? || createSucceeds
    ensures st.player.Some? ==> r.0 == st && r.1 == [Prepare(st.player.value.id)]
    ensures st.player.None? && createSucceeds ==>
      r.0 == ReceiverState(Some(Player(st.nextId, Created)), st.nextId + 1) && r.1 == [Create(st.nextId), Prepare(st.nextId)]
    ensures st.player.None? && !createSucceeds ==> r.0 == st && r.1 == [CreateFailed]
  {
    match st.player
    case Some(p) => (st, [Prepare(p.id)])
    case None =>
      if createSucceeds then
        (ReceiverState(Some(Player(st.nextId, Created)), st.nextId + 1), [Create(st.nextId), Prepare(st.nextId)])
      else
        (st, [CreateFailed])
  }

  /**
   * The dispatch on the fence key: START starts the held player (and
   * dereferences null when there is none); STOP stops, resets and drops the
   * held player; any other key does nothing.
   */
  function Dispatch(st: ReceiverState, key: Option<string>): (r: (ReceiverState, seq<PlayerCall>, bool))
    ensures r.0.nextId == st.nextId
    ensures r.2 <==> key == Some(StartFenceKey) && st.player.None?
    ensures key == Some(StartFenceKey) && st.player.Some? ==>
      r.0.player == Some(st.player.value.(phase := Started)) && r.1 == [Start(st.player.value.id)]
    ensures key == Some(StopFenceKey) ==>
      r.0.player == None && r.1 == (if st.player.Some? then [Stop(st.player.value.id), Reset(st.player.value.id)] else [])
    ensures key != Some(StartFenceKey) && key != Some(StopFenceKey) ==> r == (st, [], false)
  {
    if TextEquals(key, Some(StartFenceKey)) then
      match st.player
      case None => (st, [], true)
      case Some(p) => (st.(player := Some(p.(phase := Started))), [Start(p.id)], false)
    else if TextEquals(key, Some(StopFenceKey)) then
      match st.player
      case None => (st, [], false)
      case Some(p) => (st.(player := None), [Stop(p.id), Reset(p.id)], false)
    else
      (st, [], false)
  }

  /**
   * One delivery to onReceive: guard, acquire, dispatch, then notify if
   * `started`. A crash leaves the slot as it was and shows nothing; at most
   * one player is created; the slot afterwards holds nothing, the player it
   * held, or the one just created; and a STOP delivery always empties it.
   */
  function Step(st: ReceiverState, ev: Event, createSucceeds: bool): (r: Outcome)
    ensures r.crashed ==> r.state == st && r.calls == [CreateFailed] && r.notification == Silent
    ensures st.nextId <= r.state.nextId <= st.nextId + 1
    ensures r.state.player.Some? ==> r.state.player.value.id == Target(st)
    ensures Accepted(ev) && ev.key == Some(StopFenceKey) ==> r.state.player.None?
    ensures r.notification.Shown? ==> Accepted(ev) && ev.state == FenceTrue
  {
    if !Accepted(ev) then Outcome(st, [], Silent, false)
    else
      var (acquired, acquireCalls) := Acquire(st, createSucceeds);
      var (dispatched, dispatchCalls, crashed) := Dispatch(acquired, ev.key);
      var note := if IsStarted(ev.state) && !crashed then Shown(Label(ev.key)) else Silent;
      Outcome(dispatched, acquireCalls + dispatchCalls, note, crashed)
  }

  /** A fresh receiver that has called nothing and shown nothing. */
  const Fresh: Trace := Trace(Initial, [], [], false)

  /**
   * The deliveries `ds` processed one after another, extending trace `t`;
   * once the handler has crashed nothing more is processed. The logs only
   * grow, and ids are never handed out twice.
   */
  function Run(t: Trace, ds: seq<Delivery>): (r: Trace)
    ensures t.crashed ==> r == t
    ensures t.calls <= r.calls && t.notifications <= r.notifications
    ensures t.state.nextId <= r.state.nextId
    decreases |ds|
  {
    if ds == [] || t.crashed then t
    else
      var o := Step(t.state, ds[0].event, ds[0].createSucceeds);
      var shown := if o.notification.Shown? then [o.notification.text] else [];
      Run(Trace(o.state, t.calls + o.calls, t.notifications + shown, o.crashed), ds[1..])
  }

  // ---------------------------------------------------------------------------
  // One delivery
  // ---------------------------------------------------------------------------

  /** A broadcast with another action changes nothing and shows nothing. */
  lemma ForeignActionIgnored(st: ReceiverState, ev: Event, createSucceeds: bool)
    requires ev.action != Some(FenceReceiverAction)
    ensures Step(st, ev, createSucceeds) == Outcome(st, [], Silent, false)
  {
  }

  /**
   * A notification is shown exactly when the action is accepted, the fence
   * value is TRUE and the handler did not crash; its text is the key's label.
   */
  lemma NotifiesIffStarted(st: ReceiverState, ev: Event, createSucceeds: bool)
    ensures var r := Step(st, ev, createSucceeds);
      && (r.notification.Shown? <==> Accepted(ev) && ev.state == FenceTrue && !r.crashed)
      && (r.notification.Shown? ==> r.notification.text == Label(ev.key))
  {
  }

  /** The handler crashes exactly on a START key when the slot is empty and creation fails. */
  lemma CrashesOnlyWithoutPlayer(st: ReceiverState, ev: Event, createSucceeds: bool)
    ensures Step(st, ev, createSucceeds).crashed <==>
      Accepted(ev) && ev.key == Some(StartFenceKey) && st.player.None? && !createSucceeds
  {
  }

  /**
   * After an accepted STOP event the slot is empty, and the player it held —
   * the one it already had, or the one just created — was prepared, stopped
   * and reset, in that order, as the last calls of the handler.
   */
  lemma StopResetsPlayer(st: ReceiverState, ev: Event, createSucceeds: bool)
    requires Accepted(ev) && ev.key == Some(StopFenceKey)
    ensures var r := Step(st, ev, createSucceeds);
      && r.state.player == None
      && !r.crashed
      && (st.player.Some? ==> r.calls == [Prepare(st.player.value.id), Stop(st.player.value.id), Reset(st.player.value.id)])
      && (st.player.None? && createSucceeds ==>
            r.calls == [Create(st.nextId), Prepare(st.nextId), Stop(st.nextId), Reset(st.nextId)])
      && (st.player.None? && !createSucceeds ==> r.calls == [CreateFailed])
  {
  }

  /**
   * After an accepted START event the player was prepared and then started,
   * as the last calls of the handler: the one already held, or the one just
   * created. When the slot is empty and creation fails, nothing is prepared
   * and the handler crashes.
   */
  lemma StartPreparesThenStarts(st: ReceiverState, ev: Event, createSucceeds: bool)
    requires Accepted(ev) && ev.key == Some(StartFenceKey)
    ensures var r := Step(st, ev, createSucceeds);
      && (st.player.Some? ==> r.calls == [Prepare(st.player.value.id), Start(st.player.value.id)] && !r.crashed)
      && (st.player.None? && createSucceeds ==>
            r.calls == [Create(st.nextId), Prepare(st.nextId), Start(st.nextId)] && !r.crashed)
      && (st.player.None? && !createSucceeds ==> r.calls == [CreateFailed] && r.crashed)
  {
  }

  /**
   * After an accepted event with any key but STOP the slot holds a player
   * whenever creation is not needed or succeeds; a held player is reused,
   * never re-created.
   */
  lemma OtherKeysKeepPlayer(st: ReceiverState, ev: Event, createSucceeds: bool)
    requires Accepted(ev) && ev.key != Some(StopFenceKey)
    requires st.player.Some? || createSucceeds
    ensures var r := Step(st, ev, createSucceeds);
      && r.state.player.Some?
      && !r.crashed
      && (st.player.Some? ==> r.state.player.value.id == st.player.value.id && r.state.nextId == st.nextId)
      && (forall i :: 0 <= i < |r.calls| ==> !r.calls[i].Create? || st.player.None?)
  {
  }

  /**
   * The fence value decides only the toast: the slot, the calls and the crash
   * are the same whatever it is. On the START key the player is started
   * whenever there is one to start; a key that is neither START nor STOP
   * neither starts nor stops it.
   */
  lemma StartIgnoresFenceValue(st: ReceiverState, ev: Event, createSucceeds: bool, other: TriState)
    requires Accepted(ev)
    ensures var r := Step(st, ev, createSucceeds);
      && (var q := Step(st, ev.(state := other), createSucceeds);
            q.state == r.state && q.calls == r.calls && q.crashed == r.crashed)
      && (ev.key == Some(StartFenceKey) && (st.player.Some? || createSucceeds) ==>
            r.state.player.Some? && r.state.player.value.phase == Started && r.calls[|r.calls| - 1] == Start(r.state.player.value.id))
      && (ev.key != Some(StartFenceKey) && ev.key != Some(StopFenceKey) ==>
            r.state == Acquire(st, createSucceeds).0 &&
            forall i :: 0 <= i < |r.calls| ==> r.calls[i].Create? || r.calls[i].CreateFailed? || r.calls[i].Prepare?)
  {
  }

  // ---------------------------------------------------------------------------
  // The lifecycle invariant over any sequence of deliveries
  // ---------------------------------------------------------------------------

  /** Every call in `log` is made on a player whose id is below `n`. */
  ghost predicate IdsBelow(log: seq<PlayerCall>, n: nat) {
    forall i :: 0 <= i < |log| ==> Handle(log[i]).Some? ==> Handle(log[i]).value < n
  }

  /** Once a player is reset, no later call is made on it. */
  ghost predicate NoUseAfterReset(log: seq<PlayerCall>) {
    forall i, j :: 0 <= i < j < |log| && log[i].Reset? ==> Handle(log[j]) != Some(log[i].id)
  }

  /** A created player is a new one: no earlier call was made on its id. */
  ghost predicate FreshCreates(log: seq<PlayerCall>) {
    forall i, j :: 0 <= i < j < |log| && log[j].Create? ==> Handle(log[i]) != Some(log[j].id)
  }

  function Creates(log: seq<PlayerCall>): nat {
    if log == [] then 0 else (if log[0].Create? then 1 else 0) + Creates(log[1..])
  }

  function Resets(log: seq<PlayerCall>): nat {
    if log == [] then 0 else (if log[0].Reset? then 1 else 0) + Resets(log[1..])
  }

  /** Every call other than a create is made on a player created earlier in `log`. */
  ghost predicate UsesOnlyCreated(log: seq<PlayerCall>) {
    forall i :: 0 <= i < |log| && Handle(log[i]).Some? && !log[i].Create? ==> Create(Handle(log[i]).value) in log[..i]
  }

  /** Every created player has been reset, unless it is the one still held in the slot. */
  ghost predicate NoneDroppedUnreset(log: seq<PlayerCall>, held: Option<Player>) {
    forall i :: 0 <= i < |log| && log[i].Create? ==> Reset(log[i].id) in log || (held.Some? && held.value.id == log[i].id)
  }

  /**
   * The receiver's lifecycle invariant, relating its state to every call made
   * so far: ids are fresh, a player is used only after it is created and never
   * after it is reset, the held player was created and has not been reset,
   * every other created player has been reset before it was dropped, and
   * there is exactly one created-but-not-reset player when the slot is full
   * and none when it is empty.
   */
  ghost predicate Inv(st: ReceiverState, log: seq<PlayerCall>) {
    && IdsBelow(log, st.nextId)
    && NoUseAfterReset(log)
    && FreshCreates(log)
    && UsesOnlyCreated(log)
    && NoneDroppedUnreset(log, st.player)
    && (st.player.Some? ==> st.player.value.id < st.nextId && Create(st.player.value.id) in log && Reset(st.player.value.id) !in log)
    && Creates(log) == Resets(log) + (if st.player.Some? then 1 else 0)
  }

  lemma {:induction false} CountsAppend(a: seq<PlayerCall>, b: seq<PlayerCall>)
    ensures Creates(a + b) == Creates(a) + Creates(b)
    ensures Resets(a + b) == Resets(a) + Resets(b)
  {
    if a == [] {
      assert a + b == b;
    } else {
      assert (a + b)[1..] == a[1..] + b;
      CountsAppend(a[1..], b);
    }
  }

  lemma CountsOfPair(a: PlayerCall, b: PlayerCall)
    ensures Creates([a, b]) == (if a.Create? then 1 else 0) + (if b.Create? then 1 else 0)
    ensures Resets([a, b]) == (if a.Reset? then 1 else 0) + (if b.Reset? then 1 else 0)
  {
    assert [a, b][1..] == [b];
    assert [b][1..] == [];
    assert Creates([b]) == (if b.Create? then 1 else 0) + Creates([]);
    assert Creates([a, b]) == (if a.Create? then 1 else 0) + Creates([b]);
    assert Resets([b]) == (if b.Reset? then 1 else 0) + Resets([]);
    assert Resets([a, b]) == (if a.Reset? then 1 else 0) + Resets([b]);
  }

  /** One delivery creates a player only into an empty slot and resets one only when it drops it. */
  lemma StepCounts(st: ReceiverState, ev: Event, createSucceeds: bool)
    ensures var r := Step(st, ev, createSucceeds);
      && Creates(r.calls) == (if Accepted(ev) && st.player.None? && createSucceeds then 1 else 0)
      && Resets(r.calls) == (if Accepted(ev) && ev.key == Some(StopFenceKey) && (st.player.Some? || createSucceeds) then 1 else 0)
  {
    if Accepted(ev) {
      var (acquired, acquireCalls) := Acquire(st, createSucceeds);
      var (dispatched, dispatchCalls, crashed) := Dispatch(acquired, ev.key);
      CountsAppend(acquireCalls, dispatchCalls);
      CountsOfPair(Create(st.nextId), Prepare(st.nextId));
      assert [CreateFailed][1..] == [];
      if acquired.player.Some? {
        var id := acquired.player.value.id;
        CountsOfPair(Stop(id), Reset(id));
        assert [Prepare(id)][1..] == [];
        assert [Start(id)][1..] == [];
      }
    }
  }

  /** The player a delivery works on: the held one, or the one it would create. */
  function Target(st: ReceiverState): nat {
    if st.player.Some? then st.player.value.id else st.nextId
  }

  /** Calls made on player `h` only, creating it only first and resetting it only last. */
  ghost predicate OnlyOn(calls: seq<PlayerCall>, h: nat) {
    && (forall j :: 0 <= j < |calls| ==> Handle(calls[j]).None? || Handle(calls[j]) == Some(h))
    && (forall j :: 0 <= j < |calls| && calls[j].Create? ==> j == 0)
    && (forall j :: 0 <= j < |calls| && calls[j].Reset? ==> j == |calls| - 1)
  }

  /** What the invariant needs to know of one delivery's calls and new state. */
  lemma StepShape(st: ReceiverState, ev: Event, createSucceeds: bool)
    requires st.player.Some? ==> st.player.value.id < st.nextId
    ensures var r := Step(st, ev, createSucceeds);
      && OnlyOn(r.calls, Target(st))
      && (forall j :: 0 <= j < |r.calls| && r.calls[j].Create? ==> st.player.None?)
      && (forall j :: 0 <= j < |r.calls| && Handle(r.calls[j]).Some? ==> Target(st) < r.state.nextId)
      && st.nextId <= r.state.nextId
      && (r.state.player.Some? ==> r.state.player.value.id == Target(st) && Target(st) < r.state.nextId && Reset(Target(st)) !in r.calls)
      && (st.player.None? ==> forall j :: 0 <= j < |r.calls| && Handle(r.calls[j]).Some? ==> r.calls[0] == Create(Target(st)))
      && (r.state.player.Some? && st.player.None? ==> |r.calls| > 0 && r.calls[0] == Create(Target(st)))
      && (r.state.player.None? && (st.player.Some? || Create(Target(st)) in r.calls) ==> Reset(Target(st)) in r.calls)
  {
  }

  /** Calls on `h` appended after its creation, or starting with it, use only created players. */
  lemma AppendKeepsUsesOnlyCreated(log: seq<PlayerCall>, E: seq<PlayerCall>, h: nat, held: bool)
    requires UsesOnlyCreated(log) && OnlyOn(E, h)
    requires held ==> Create(h) in log
    requires !held ==> forall j :: 0 <= j < |E| && Handle(E[j]).Some? ==> E[0] == Create(h)
    ensures UsesOnlyCreated(log + E)
  {
    var log' := log + E;
    forall j | 0 <= j < |log'| && Handle(log'[j]).Some? && !log'[j].Create?
      ensures Create(Handle(log'[j]).value) in log'[..j]
    {
      if j < |log| {
        assert log'[..j] == log[..j];
      } else {
        assert log'[j] == E[j - |log|];
        assert log'[..j] == log + E[..j - |log|];
        if !held {
          assert log'[..j][|log|] == Create(h);
        }
      }
    }
  }

  /**
   * Calls on `h` keep every created player reset or held, when `h` is the
   * player held before and after and is reset if it is dropped.
   */
  lemma AppendKeepsNoneDroppedUnreset(log: seq<PlayerCall>, E: seq<PlayerCall>, h: nat, held: Option<Player>, held': Option<Player>)
    requires NoneDroppedUnreset(log, held) && OnlyOn(E, h)
    requires held.Some? ==> held.value.id == h
    requires held'.Some? ==> held'.value.id == h
    requires held'.None? && (held.Some? || Create(h) in E) ==> Reset(h) in E
    ensures NoneDroppedUnreset(log + E, held')
  {
    var log' := log + E;
    forall i | 0 <= i < |log'| && log'[i].Create?
      ensures Reset(log'[i].id) in log' || (held'.Some? && held'.value.id == log'[i].id)
    {
      if i >= |log| {
        assert log'[i] == E[i - |log|];
        assert Handle(E[i - |log|]) == Some(h);
      }
    }
  }

  /** Appending the calls of one delivery keeps the invariant. */
  lemma StepPreservesInv(st: ReceiverState, log: seq<PlayerCall>, ev: Event, createSucceeds: bool)
    requires Inv(st, log)
    ensures var r := Step(st, ev, createSucceeds); Inv(r.state, log + r.calls)
  {
    var r := Step(st, ev, createSucceeds);
    CountsAppend(log, r.calls);
    StepCounts(st, ev, createSucceeds);
    StepShape(st, ev, createSucceeds);
    var h, E, log' := Target(st), r.calls, log + r.calls;
    // `h` has never been reset: it is either the held player or not yet created.
    assert forall i :: 0 <= i < |log| && log[i].Reset? ==> log[i].id != h by {
      forall i | 0 <= i < |log| && log[i].Reset?
        ensures log[i].id != h
      {
        assert Handle(log[i]) == Some(log[i].id);
        if st.player.Some? {
          assert log[i] != Reset(h);
        }
      }
    }
    assert forall i :: 0 <= i < |log| ==> Handle(log[i]) != Some(st.nextId);
    assert IdsBelow(log', r.state.nextId) by {
      forall j | 0 <= j < |log'| && Handle(log'[j]).Some?
        ensures Handle(log'[j]).value < r.state.nextId
      {
        if j >= |log| { assert log'[j] == E[j - |log|]; }
      }
    }
    assert NoUseAfterReset(log') by {
      forall i, j | 0 <= i < j < |log'| && log'[i].Reset?
        ensures Handle(log'[j]) != Some(log'[i].id)
      {
        if j >= |log| {
          assert log'[j] == E[j - |log|];
        }
      }
    }
    assert FreshCreates(log') by {
      forall i, j | 0 <= i < j < |log'| && log'[j].Create?
        ensures Handle(log'[i]) != Some(log'[j].id)
      {
        if j >= |log| {
          assert log'[j] == E[j - |log|];
          assert Handle(E[j - |log|]) == Some(h);
        }
      }
    }
    AppendKeepsUsesOnlyCreated(log, E, h, st.player.Some?);
    AppendKeepsNoneDroppedUnreset(log, E, h, st.player, r.state.player);
    if r.state.player.Some? {
      assert Reset(h) !in log;
      if st.player.None? {
        assert log'[|log|] == Create(h);
      }
    }
  }

  /** The invariant holds after any sequence of deliveries. */
  lemma {:induction false} RunPreservesInv(t: Trace, ds: seq<Delivery>)
    requires Inv(t.state, t.calls)
    ensures Inv(Run(t, ds).state, Run(t, ds).calls)
    decreases |ds|
  {
    if ds != [] && !t.crashed {
      var o := Step(t.state, ds[0].event, ds[0].createSucceeds);
      var shown := if o.notification.Shown? then [o.notification.text] else [];
      StepPreservesInv(t.state, t.calls, ds[0].event, ds[0].createSucceeds);
      RunPreservesInv(Trace(o.state, t.calls + o.calls, t.notifications + shown, o.crashed), ds[1..]);
    }
  }

  /**
   * From a fresh receiver, whatever is delivered to it: every created player is
   * new, a player is used only after it is created and never after it is
   * reset, every created player other than the held one has been reset, and
   * the held one has not — exactly one created-but-not-reset player while the
   * slot is full and none while it is empty.
   */
  lemma ReceiverNeverDropsUnresetPlayer(ds: seq<Delivery>)
    ensures var t := Run(Fresh, ds);
      && NoUseAfterReset(t.calls)
      && FreshCreates(t.calls)
      && UsesOnlyCreated(t.calls)
      && NoneDroppedUnreset(t.calls, t.state.player)
      && (t.state.player.Some? ==> Create(t.state.player.value.id) in t.calls && Reset(t.state.player.value.id) !in t.calls)
      && Creates(t.calls) == Resets(t.calls) + (if t.state.player.Some? then 1 else 0)
  {
    RunPreservesInv(Fresh, ds);
  }

  // ---------------------------------------------------------------------------
  // Scenarios in which the handler does more than a clean two-state machine
  // ---------------------------------------------------------------------------

  /** Two START/TRUE deliveries prepare and start the same player twice and show two notifications. */
  lemma DuplicateStartIsNotDeduplicated()
    ensures var start := Delivery(Event(Some(FenceReceiverAction), Some(StartFenceKey), FenceTrue), true);
      var t := Run(Fresh, [start, start]);
      && t.calls == [Create(0), Prepare(0), Start(0), Prepare(0), Start(0)]
      && t.notifications == [Some("NOT ACTIVE"), Some("NOT ACTIVE")]
  {
    var start := Delivery(Event(Some(FenceReceiverAction), Some(StartFenceKey), FenceTrue), true);
    var first := Step(Initial, start.event, true);
    assert first.calls == [Create(0), Prepare(0)] + [Start(0)];
    assert first.state == ReceiverState(Some(Player(0, Started)), 1);
    var once := Trace(first.state, [] + first.calls, [] + [Some("NOT ACTIVE")], false);
    assert Run(Fresh, [start, start]) == Run(once, [start]) by {
      assert [start, start][1..] == [start];
    }
    var second := Step(first.state, start.event, true);
    assert second.calls == [Prepare(0)] + [Start(0)];
    assert Run(once, [start]) == Run(Trace(second.state, once.calls + second.calls, once.notifications + [Some("NOT ACTIVE")], false), []) by {
      assert [start][1..] == [];
    }
  }

  /** A STOP/FALSE delivery to a fresh receiver creates a player only to stop and reset it, silently. */
  lemma StopOnEmptySlotCreatesThenResets()
    ensures var stop := Delivery(Event(Some(FenceReceiverAction), Some(StopFenceKey), FenceFalse), true);
      var t := Run(Fresh, [stop]);
      && t.calls == [Create(0), Prepare(0), Stop(0), Reset(0)]
      && t.notifications == []
      && t.state == ReceiverState(None, 1)
  {
    var stop := Delivery(Event(Some(FenceReceiverAction), Some(StopFenceKey), FenceFalse), true);
    assert [stop][1..] == [];
  }
}
