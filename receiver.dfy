/**
 * MainActivity.FenceReceiver: the broadcast receiver that owns the player
 * slot `mPlayer` and reacts to fence deliveries.
 */
module Receiver {
  import opened Wrappers
  import opened Fences

  class FenceReceiver {
    /** `mPlayer`: null, or the player this receiver holds. */
    var player: Option<Player>
    /** Identity the next player returned by MediaPlayer.create gets. */
    var nextId: nat
    /** Every call made on the media-player library, in order. */
    ghost var calls: seq<PlayerCall>
    /** The text of every toast shown, in order. */
    ghost var toasts: seq<Option<string>>

    function State(): ReceiverState
      reads this
    {
      ReceiverState(player, nextId)
    }

    ghost predicate Valid()
      reads this
    {
      Inv(State(), calls)
    }

    /** The receiver starts with `mPlayer = null`. */
    constructor ()
      ensures Valid()
      ensures player == None && calls == [] && toasts == []
    {
      player, nextId := None, 0;
      calls, toasts := [], [];
    }

    /**
     * onReceive. `createSucceeds` is what MediaPlayer.create returns, should
     * it be called: a new player, or null. The handler ends early on a foreign
     * action and when `mPlayer.start()` dereferences null (`crashed`).
     */
    method OnReceive(ev: Event, createSucceeds: bool) returns (crashed: bool)
      requires Valid()
      modifies this
      ensures Valid()
      ensures var r := Step(old(State()), ev, createSucceeds);
        && State() == r.state
        && calls == old(calls) + r.calls
        && toasts == old(toasts) + (if r.notification.Shown? then [r.notification.text] else [])
        && crashed == r.crashed
    {
      ghost var st, log := State(), calls;
      crashed := Deliver(ev, createSucceeds);
      StepPreservesInv(st, log, ev, createSucceeds);
    }

    /**
     * The statements of onReceive, from the action guard to the toast.
     * `OnReceive` is the entry point: it calls this and re-establishes
     * `Valid()`, which this method neither needs nor promises.
     */
    method Deliver(ev: Event, createSucceeds: bool) returns (crashed: bool)
      modifies this
      ensures var r := Step(old(State()), ev, createSucceeds);
        && State() == r.state
        && calls == old(calls) + r.calls
        && toasts == old(toasts) + (if r.notification.Shown? then [r.notification.text] else [])
        && crashed == r.crashed
    {
      ghost var st, log := State(), calls;
      ghost var r := Step(st, ev, createSucceeds);
      crashed := false;
      if !TextEquals(Some(FenceReceiverAction), ev.action) {
        assert calls == log + r.calls;
        return;
      }
      ghost var acquired := Acquire(st, createSucceeds);
      ghost var dispatched := Dispatch(acquired.0, ev.key);
      assert r.calls == acquired.1 + dispatched.1;

      var started := false;
      var fenceStateStr: Option<string> := None;
      match ev.state {
        case FenceTrue => started := true;
        case FenceFalse => started := false;
        case FenceUnknown =>
      }

      if player == None {
        if createSucceeds {
          player := Some(Player(nextId, Created));
          calls := calls + [Create(nextId)];
          nextId := nextId + 1;
        } else {
          calls := calls + [CreateFailed];
        }
      }
      // prepare() on a player that cannot be prepared throws; the exception is caught.
      if player != None {
        calls := calls + [Prepare(player.value.id)];
      }
      assert State() == acquired.0 && calls == log + acquired.1;

      if TextEquals(ev.key, Some(StartFenceKey)) {
        fenceStateStr := Some("NOT ACTIVE");
        if player == None {
          crashed := true;
          assert calls == log + r.calls;
          return;
        }
        calls := calls + [Start(player.value.id)];
        player := Some(player.value.(phase := Started));
      } else if TextEquals(ev.key, Some(StopFenceKey)) {
        fenceStateStr := Some("ACTIVE");
        if player != None {
          calls := calls + [Stop(player.value.id)];
          calls := calls + [Reset(player.value.id)];
          player := None;
        }
      }
      assert State() == dispatched.0 && calls == log + acquired.1 + dispatched.1;
      assert calls == log + r.calls;

      if started {
        toasts := toasts + [fenceStateStr];
      }
    }
  }
}
