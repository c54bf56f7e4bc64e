# Awareness demo: fence receiver, permission gate and fence keys, in Dafny

The awareness demo is an Android app. It registers two activity fences with
Google's awareness service: "still, starting" under `start_fence_key` and
"still, stopping" under `stop_fence_key`. When a fence fires, a broadcast
reaches `MainActivity.FenceReceiver.onReceive`. That handler owns one media
player slot, `mPlayer`. It creates a player when the slot is empty and then
prepares the player it holds, on every accepted delivery, whether the player is new or
not. It starts the player on the start key, and stops, resets and drops it on
the stop key. It shows a toast only when the fence value is TRUE. The activity
also gates its weather snapshot behind location permission and keeps track of
the two fence keys.

The project has three modules:

- `Fences` (fences.dfy) gives one delivery to `onReceive` as the pure function
  `Step`. `Step` is built from `Acquire` (lazy creation and `prepare`) and
  `Dispatch` (the key chain), and `Run` folds `Step` over many deliveries. The
  module also holds the receiver's lifecycle invariant `Inv` and the lemmas
  about one delivery and about any sequence of deliveries.
- `Receiver` (receiver.dfy) holds the class `FenceReceiver`. Its `Deliver`
  performs the handler statement by statement: a `match` for the fence value,
  then the if-chain on the key. It is proved equal to `Step`. `OnReceive`, the
  entry point, calls `Deliver` and keeps `Inv` by `StepPreservesInv`.
- `Activity` (activity.dfy) holds the class `MainActivity`. It covers the
  permission gate (`checkAndRequestWeatherPermissions`, `getWeatherSnapshot`,
  `printSnapshot`, `onResume`, `onRequestPermissionsResult`) and the fence-key
  registry (`setupFence`, `setupFences`, `onPause`). The registry is kept equal
  to `Registered`, the set of keys produced by the update requests sent so far.
  Two client methods use the class end to end. `DeferredWeatherScenario` denies
  permission, so the snapshot button only requests it; after the grant, the
  permission callback sends the weather query exactly once.
  `FenceLifecycleScenario` connects, pauses and connects again, and both keys
  end up registered once each.

The player is a value `Player(id, phase)` with phases `Created` and `Started`.
A fresh `id` stands for each new object that `MediaPlayer.create` returns.
Every call the handler makes on the media-player library is appended to a log
(`Create`, `CreateFailed`, `Prepare`, `Start`, `Stop`, `Reset`). Toasts are
appended to a second log. What `MediaPlayer.create` returns is an input
(`createSucceeds`). When it returns null on a start key, `mPlayer.start()`
dereferences null. The model reports this as `crashed`, and no toast is shown.

Constants: `BuildConfig.APPLICATION_ID` is not part of this model. It is taken
to be the package name `com.goodcodeforfun.awarenessdemo`, so the accepted
action is `com.goodcodeforfun.awarenessdemo.FENCE_RECEIVER_ACTION`.
`PackageManager.PERMISSION_GRANTED` is 0, as Android defines it.

The handler is not a clean two-state controller, and the model keeps what the code does:

- No guard stops duplicate start deliveries. Each one prepares and starts the
  same player again and shows another toast (`DuplicateStartIsNotDeduplicated`).
- A stop delivery to an empty slot first creates and prepares a player, then
  stops and resets it (`StopOnEmptySlotCreatesThenResets`).
- An UNKNOWN fence value is not a no-op for the player. Creation, `prepare` and
  the key dispatch still happen; only the toast is suppressed
  (`StartIgnoresFenceValue`).
- The toast depends on the fence value, not on the key. A stop delivery whose
  value is TRUE shows "ACTIVE", and a TRUE delivery with another key shows a
  null text (`NotifiesIffStarted`).
- Each fence key is sent in its own update request, not in one atomic request
  (`MainActivity.SetupFences`).

## Model

| member | source | states |
|---|---|---|
| `Fences.TextEquals` | app/src/main/java/com/goodcodeforfun/awarenessdemo/MainActivity.java:241 | The action and key comparisons are equality of possibly-null strings: two nulls are equal, and null differs from every string. |
| `Fences.IsStarted` | app/src/main/java/com/goodcodeforfun/awarenessdemo/MainActivity.java:248-259 | `started` is true exactly when the fence value is TRUE; FALSE and any other value leave it false. |
| `Fences.Label` | app/src/main/java/com/goodcodeforfun/awarenessdemo/MainActivity.java:249-276 | The toast text is "NOT ACTIVE" for the start key and "ACTIVE" for the stop key. It is null exactly when the key is neither. |
| `Fences.Acquire` | app/src/main/java/com/goodcodeforfun/awarenessdemo/MainActivity.java:261-270 | A held player is kept and prepared again. An empty slot gets a new player with a fresh id, which is then prepared. A failed create leaves the slot empty and prepares nothing. |
| `Fences.Dispatch` | app/src/main/java/com/goodcodeforfun/awarenessdemo/MainActivity.java:272-282 | The start key starts the held player, and dereferences null when there is none. The stop key stops, resets and drops the held player, and always leaves the slot empty. Any other key changes nothing. |
| `Fences.Step` | app/src/main/java/com/goodcodeforfun/awarenessdemo/MainActivity.java:240-286 | One delivery. A crash leaves the slot unchanged, its only call is the failed create, and no toast is shown. At most one player is created. Afterwards the slot is empty or holds the player it held or the one just created. An accepted stop-key delivery always leaves it empty. A toast is shown only for an accepted delivery whose value is TRUE. |
| `Fences.Run` | app/src/main/java/com/goodcodeforfun/awarenessdemo/MainActivity.java:240-286 | Deliveries are handled one after another until the first crash; nothing is processed after it. The call and toast logs only grow, and the next id never goes down. |
| `Fences.ForeignActionIgnored` | app/src/main/java/com/goodcodeforfun/awarenessdemo/MainActivity.java:241-244 | A broadcast whose action is not the fence action leaves `mPlayer` unchanged, calls nothing and shows no toast. |
| `Fences.NotifiesIffStarted` | app/src/main/java/com/goodcodeforfun/awarenessdemo/MainActivity.java:248-285 | A toast is shown exactly when the action is accepted, the fence value is TRUE and the handler did not crash. Its text is the key's label. |
| `Fences.CrashesOnlyWithoutPlayer` | app/src/main/java/com/goodcodeforfun/awarenessdemo/MainActivity.java:261-274 | The handler dereferences null exactly on an accepted start-key delivery to an empty slot when create returns null. |
| `Fences.StopResetsPlayer` | app/src/main/java/com/goodcodeforfun/awarenessdemo/MainActivity.java:261-281 | After an accepted stop-key delivery the slot is null. The player it held was prepared, stopped and then reset, in that order. An empty slot first gets a new player, which is reset in the same way. A failed create leaves nothing to stop. |
| `Fences.StartPreparesThenStarts` | app/src/main/java/com/goodcodeforfun/awarenessdemo/MainActivity.java:261-274 | On an accepted start-key delivery the player is prepared and then started, as the last calls of the handler. A held player gets exactly prepare then start. A new player gets create, prepare, start. A failed create into an empty slot prepares nothing and ends in the null dereference. |
| `Fences.OtherKeysKeepPlayer` | app/src/main/java/com/goodcodeforfun/awarenessdemo/MainActivity.java:261-262 | After an accepted delivery with any key but stop, the slot holds a player whenever one was held or create succeeds. A held player keeps its identity, and no create is called. |
| `Fences.StartIgnoresFenceValue` | app/src/main/java/com/goodcodeforfun/awarenessdemo/MainActivity.java:248-282 | The fence value changes only the toast: with any other value the slot, the calls and the crash are the same. On the start key the player is started whenever one is held or create succeeds. A key that is neither start nor stop only creates (or fails to create) and prepares. |
| `Fences.StepCounts` | app/src/main/java/com/goodcodeforfun/awarenessdemo/MainActivity.java:261-281 | One delivery creates a player only into an empty slot. It resets exactly one player when it handles the stop key with a player in hand. |
| `Fences.StepPreservesInv` | app/src/main/java/com/goodcodeforfun/awarenessdemo/MainActivity.java:240-286 | One delivery keeps the lifecycle invariant. Ids are fresh. A player is used only after it is created and never after it is reset. The held player was created and is not reset. Every other created player was reset before the slot dropped it. There is exactly one created-but-not-reset player while the slot is full and none while it is empty. |
| `Fences.RunPreservesInv` | app/src/main/java/com/goodcodeforfun/awarenessdemo/MainActivity.java:240-286 | Any sequence of deliveries keeps the lifecycle invariant. |
| `Fences.ReceiverNeverDropsUnresetPlayer` | app/src/main/java/com/goodcodeforfun/awarenessdemo/MainActivity.java:237-281 | For one receiver, from `mPlayer = null`, whatever is delivered to it: every created player is new and is used only after its creation and never after its reset. No created player is dropped without reset: each one is reset or is the player still held. |
| `Fences.DuplicateStartIsNotDeduplicated` | app/src/main/java/com/goodcodeforfun/awarenessdemo/MainActivity.java:261-285 | Two start deliveries with value TRUE prepare and start the same player twice and show "NOT ACTIVE" twice. |
| `Fences.StopOnEmptySlotCreatesThenResets` | app/src/main/java/com/goodcodeforfun/awarenessdemo/MainActivity.java:261-281 | A stop delivery with value FALSE to a fresh receiver creates, prepares, stops and resets a player, and shows nothing. |
| `Receiver.FenceReceiver.constructor` | app/src/main/java/com/goodcodeforfun/awarenessdemo/MainActivity.java:237 | A new receiver holds no player, has called nothing and satisfies the invariant. |
| `Receiver.FenceReceiver.OnReceive` | app/src/main/java/com/goodcodeforfun/awarenessdemo/MainActivity.java:240-286 | The handler changes the slot, the call log and the toast log exactly as `Step` says, and keeps the lifecycle invariant. |
| `Receiver.FenceReceiver.Deliver` | app/src/main/java/com/goodcodeforfun/awarenessdemo/MainActivity.java:240-286 | The handler's statements, performed in place, change the slot, the call log and the toast log exactly as `Step` says, and report the null dereference as `Step` does. |
| `Activity.MainActivity.CheckAndRequestWeatherPermissions` | app/src/main/java/com/goodcodeforfun/awarenessdemo/MainActivity.java:176-191 | Returns whether location permission is held. When it is missing, the method requests it with request code 0 and returns false. |
| `Activity.MainActivity.GetWeatherSnapshot` | app/src/main/java/com/goodcodeforfun/awarenessdemo/MainActivity.java:158-174 | The weather query is issued exactly when location permission is held; otherwise nothing is sent. |
| `Activity.MainActivity.PrintSnapshot` | app/src/main/java/com/goodcodeforfun/awarenessdemo/MainActivity.java:142-156 | With permission, the activity query and then the weather query are sent. Without it, only the permission request is sent and no query. |
| `Activity.MainActivity.OnResume` | app/src/main/java/com/goodcodeforfun/awarenessdemo/MainActivity.java:108-111 | Resuming requests location permission exactly when it is missing. |
| `Activity.MainActivity.OnRequestPermissionsResult` | app/src/main/java/com/goodcodeforfun/awarenessdemo/MainActivity.java:193-207 | The weather snapshot is replayed once exactly when the request code is the location one and the first grant result exists and is GRANTED. The replay still checks the permission. |
| `Activity.MainActivity.SetupFence` | app/src/main/java/com/goodcodeforfun/awarenessdemo/MainActivity.java:217-233 | Sends one update request adding one of the two receiver keys, and the key is registered afterwards. Adding a registered key again does not duplicate it. The registry holds no key but the two receiver keys. |
| `Activity.MainActivity.SetupFences` | app/src/main/java/com/goodcodeforfun/awarenessdemo/MainActivity.java:209-215 | Adds the start key and then the stop key, as two separate requests, and both are registered afterwards. The registry holds no other key. |
| `Activity.MainActivity.OnPause` | app/src/main/java/com/goodcodeforfun/awarenessdemo/MainActivity.java:121-140 | Sends one request removing only the stop key. The stop key is unregistered and the start key stays. Afterwards the start key is the only key that can be registered. |
| `Activity.RegisteredOnlyKnownKeys` | app/src/main/java/com/goodcodeforfun/awarenessdemo/MainActivity.java:209-215 | When only the two receiver keys are ever added, the registry never holds any other key. |

## Left out

- Android lifecycle and UI: layout, toolbar, floating button, keep-screen-on flag and toast rendering. A toast is only a logged text.
- Construction and connection of the Google API client, and the asynchronous result callbacks of fence updates and snapshots. The fence-update callbacks and the weather callback only log (the weather callback reads the conditions and discards them). The detected-activity callback only shows a toast with the activity's text, which is UI. The registry is modelled as if every update request succeeds.
- Registering the receiver in `onConnected`, unregistering it in `onStop`, and the pending intents and their extras. These are platform plumbing.
- ReceiverNeverDropsUnresetPlayer: the promise covers the deliveries to one `FenceReceiver` object, from `mPlayer = null`. The activity is not modelled across receivers. Each time the client connects, `onConnected` replaces the receiver with a new one that holds no player (MainActivity.java:94-95). `onStop` only unregisters the old receiver (MainActivity.java:114-119), and its player is neither stopped nor reset. So across a stop and restart of the activity, a created and started player can be dropped without reset. A later stop-key delivery then goes to the new receiver, which creates, stops and resets a different player.
- Freeing a player's resources: the handler calls `reset()` and then drops the reference, and never calls `release()`. The model treats `reset()` as the end of a player's life, so "never dropped without reset", for one receiver, is the strongest lifecycle promise stated; the resources a reset but unreleased player keeps until garbage collection are not modelled.
- The real behaviour of `MediaPlayer`: audio output, and whether `prepare()` throws. The exception is caught and changes nothing, so `prepare()` is only logged. What `MediaPlayer.create` returns is an input to the handler.
- Process death after the null dereference: `Run` stops at the first crash and does not model a restart.
- Snapshot contents: the detected activity and the weather conditions are discarded by the code or only shown.
- The platform's permission dialog: `locationGranted` is the platform's permission state. It changes only outside the activity's code.
- Concurrency and callback threading: deliveries are processed one at a time.
