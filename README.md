# Computer-evaluation controller of the analysis board

This project models the controller that drives the chess engine on the
analysis board of the lichess mobile application
(`src/ui/analyse/ceval/CevalCtrl.ts`). The controller:

- decides whether analysis may run at all ("enabled" = the controller's
  creator allows it, through the `allowed` argument fixed for the controller's
  lifetime, and the user's setting is on);
- turns the line of tree nodes from the root to the current position into one
  analysis request (`Work`);
- normalises castling moves stored as king-captures-rook (`e1h1`) into the
  king-moves-two-squares form of the UCI protocol (`e1g1`);
- starts, stops, initialises and shuts down the engine under guards;
- forwards engine results to its caller only while it is enabled.

The engine is opaque. The model records every call the controller makes on it
(`Init`, `Start(work)`, `Stop`, `Exit`) in a ghost log. It records every result
forwarded to the caller's `emit` callback in a second ghost log.

Three modules:

- `CevalWork` (`ceval_work.dfy`) holds the pure value computations: tree
  nodes, the `Work` record, `indexOf`, the castling normaliser and the request
  builder.
- `CevalLifecycle` (`ceval_lifecycle.dfy`) gives the controller's state as a
  value, with one transition function per operation. It proves the engine
  protocol those transitions keep over any sequence of operations: a stop is
  sent only while a search runs (after a start, with no stop since; an exit in
  between does not end it), never an exit before an init, results delivered only for
  requests that were sent, and silence while disabled. It also proves that
  exits can outnumber inits: two `destroy()` calls before the first exit
  settles both reach the engine, and that `destroy()` leaves `started` set, so
  a later `stop()` sends a stop to an engine that has already exited.
- `CevalCtrl` (`ceval_ctrl.dfy`) is the controller as a class. Its fields are
  the source's closure variables. Each method changes them in place and is
  proved to perform the corresponding transition and to keep the protocol
  invariant (`Valid`).

Calling the engine's `init()` or `exit()` and the settling of the promise it
returns are separate operations. The settlement (`Resolved` or `Rejected`) is
an argument of the settling operation, and the state counts the promises
still pending. So `initialized` stays set while an exit is pending, exactly as
in the source. The core count and the
enable setting are arguments too: the constructor takes both, and `Toggle`
takes the setting.

## Model

| member | source | states |
|---|---|---|
| CevalWork.IndexOf | src/ui/analyse/ceval/CevalCtrl.ts:78 | the result is the first position where the pattern occurs, with no occurrence before it, or -1 exactly when it occurs nowhere |
| CevalWork.IsCastlingSan | src/ui/analyse/ceval/CevalCtrl.ts:78 | `indexOf('O-O') === 0` holds exactly when the SAN begins with `O-O`, so both `O-O` and `O-O-O` count as castling |
| CevalWork.FixCastle | src/ui/analyse/ceval/CevalCtrl.ts:77-90 | a move whose SAN is not castling is returned unchanged; the move is rewritten exactly when the SAN is castling and the move is a king on e1/e8 onto its own a- or h-corner; a rewrite keeps the from-square and rank and puts the king on g (h-side) or c (a-side) |
| CevalWork.FixCastleIdempotent | src/ui/analyse/ceval/CevalCtrl.ts:79-89 | normalising a move twice gives the same result as normalising it once |
| CevalWork.FixCastleTable | src/ui/analyse/ceval/CevalCtrl.ts:79-88 | for a castling SAN: e1h1→e1g1, e1a1→e1c1, e8h8→e8g8, e8a8→e8c8 |
| CevalWork.Moves | src/ui/analyse/ceval/CevalCtrl.ts:44 | one move per node, in order, each the node's move passed through FixCastle |
| CevalWork.MovesAppend | src/ui/analyse/ceval/CevalCtrl.ts:44 | the moves of a concatenated line are the concatenation of the moves |
| CevalWork.BuildWork | src/ui/analyse/ceval/CevalCtrl.ts:37-49 | the request takes the initial FEN from the root node, the current FEN and ply from the last node, has one normalised move per node after the root, depth limit 20, 3 principal variations and no threat mode |
| CevalWork.ExtendLine | src/ui/analyse/ceval/CevalCtrl.ts:41-47 | one ply further down a line, the request keeps the initial FEN and its move list grows by exactly the new node's normalised move |
| CevalLifecycle.ToggleOnlyRereadsSetting | src/ui/analyse/ceval/CevalCtrl.ts:109-111 | after a toggle the controller is enabled exactly when allowed and the new setting is on; started, initialised, allowed, the engine log and the deliveries are untouched |
| CevalLifecycle.StartIssuesOneRequest | src/ui/analyse/ceval/CevalCtrl.ts:33-57 | a start sends exactly one request and sets started when enabled, the line is not empty and its last node is not yet evaluated to depth 20; the request starts from the root's FEN with the line's normalised moves; in every other case, including a disabled start with no nodes, the state is unchanged |
| CevalLifecycle.InitThenSettle | src/ui/analyse/ceval/CevalCtrl.ts:93-97 | init followed by its settlement sends one init and leaves the controller initialised exactly when it already was or the promise resolved |
| CevalLifecycle.DestroyThenSettle | src/ui/analyse/ceval/CevalCtrl.ts:65-75 | exit is sent only when initialised, `initialized` stays set while exit is pending, and once that exit settles the controller is not initialised whether it resolved or rejected |
| CevalLifecycle.DoubleDestroySendsTwoExits | src/ui/analyse/ceval/CevalCtrl.ts:65-75 | after one resolved init, two `destroy()` calls before the exit settles send the engine init once and exit twice |
| CevalLifecycle.StopAfterExit | src/ui/analyse/ceval/CevalCtrl.ts:59-75 | `destroy()` does not clear `started`: after init resolves, a start, a destroy and a resolved exit, `stop()` still sends a stop, so the engine receives init, start, exit, stop, and the controller ends neither initialised nor started |
| CevalLifecycle.InitialProtocol | src/ui/analyse/ceval/CevalCtrl.ts:13-23 | a fresh controller satisfies the engine protocol |
| CevalLifecycle.ApplyKeepsProtocol | src/ui/analyse/ceval/CevalCtrl.ts:33-111 | every operation and every promise settlement keeps the protocol: `started` holds exactly when the last start or stop sent to the engine is a start; every stop is sent while a search runs; stops plus a running search never exceed starts; no exit precedes an init; an initialised engine, or one with an init pending, was sent an init; every pending promise comes from a call that was made |
| CevalLifecycle.RunKeepsProtocol | src/ui/analyse/ceval/CevalCtrl.ts:33-111 | any sequence of operations and settlements keeps the protocol |
| CevalLifecycle.FreshControllerProtocol | src/ui/analyse/ceval/CevalCtrl.ts:13-111 | from creation, whatever is called in whatever order and however the promises settle, the engine receives a stop only while a search runs (its last start or stop was a start; an exit in between does not end it), so never more stops than starts; `started` holds exactly when a search runs; and it never receives an exit before an init |
| CevalLifecycle.ApplyKeepsAnswered | src/ui/analyse/ceval/CevalCtrl.ts:41-55 | an operation the environment can perform (an emit only for a sent request) keeps every delivered result tied to a sent request, and never removes a call from the engine log |
| CevalLifecycle.RunKeepsAnswered | src/ui/analyse/ceval/CevalCtrl.ts:41-55 | over any feasible sequence of operations, every result delivered to the caller belongs to a request that was sent to the engine |
| CevalLifecycle.ApplyWhileDisabled | src/ui/analyse/ceval/CevalCtrl.ts:25-63 | on a disabled controller, any operation other than switching the setting on keeps it disabled, delivers nothing and neither starts nor stops the engine |
| CevalLifecycle.SilentWhileDisabled | src/ui/analyse/ceval/CevalCtrl.ts:50-52 | while the controller stays disabled, no result reaches the caller and no search is started or stopped, over any sequence of operations |
| CevalCtrl.Controller.constructor | src/ui/analyse/ceval/CevalCtrl.ts:7-23 | a new controller is not initialised or started, its enabled flag is the setting, the engine is configured with depths 8 to 20, the given cores and 3 principal variations, and it has received nothing |
| CevalCtrl.Controller.Enabled | src/ui/analyse/ceval/CevalCtrl.ts:25-27 | enabled exactly when allowed and the setting is on |
| CevalCtrl.Controller.IsInit | src/ui/analyse/ceval/CevalCtrl.ts:98-100 | returns whether the controller is currently initialised |
| CevalCtrl.Controller.Init | src/ui/analyse/ceval/CevalCtrl.ts:93-94 | sends init with the variant and leaves its promise pending; nothing else changes |
| CevalCtrl.Controller.InitSettled | src/ui/analyse/ceval/CevalCtrl.ts:94-96 | when a pending init settles, the controller becomes initialised if it resolved and is otherwise unchanged |
| CevalCtrl.Controller.Start | src/ui/analyse/ceval/CevalCtrl.ts:33-57 | when enabled and the last node needs analysis, appends exactly `Start(BuildWork(path, steps))` to the engine log and sets started; otherwise, including a disabled start with no nodes, changes nothing |
| CevalCtrl.Controller.Stop | src/ui/analyse/ceval/CevalCtrl.ts:59-63 | when enabled and started, sends stop and clears started; otherwise changes nothing |
| CevalCtrl.Controller.Destroy | src/ui/analyse/ceval/CevalCtrl.ts:65-67 | sends exit and leaves its promise pending only when initialised; `initialized` and everything else stay as they were |
| CevalCtrl.Controller.ExitSettled | src/ui/analyse/ceval/CevalCtrl.ts:68-73 | when a pending exit settles, resolved or rejected, the controller is no longer initialised; nothing else changes |
| CevalCtrl.Controller.Toggle | src/ui/analyse/ceval/CevalCtrl.ts:109-111 | only the enabled flag changes, to the setting's current value |
| CevalCtrl.Controller.Emit | src/ui/analyse/ceval/CevalCtrl.ts:50-52 | for a request that was sent, a result is forwarded to the caller exactly when the controller is enabled at the moment of emission |

## Left out

- The coordinate-training view (`src/ui/coordinates/coordView.ts`) is not part of this model: it only builds DOM.
- The engine itself (the Stockfish worker, its search, its messages and its `Tree.ClientEval` results) is an opaque collaborator. Only the calls made on it are recorded. `ClientEval` keeps only its `depth`.
- `getNbCores` and the settings store are not modelled: the core count is a constructor argument, and the enable setting is an argument of the constructor and of `Toggle`.
- Nodes after the root always carry a move here (`uci` and `san` are plain strings), so the `uci!`/`san!` non-null assertions always hold. In the source, a missing `san` throws a `TypeError` at `src/ui/analyse/ceval/CevalCtrl.ts:78`; a missing `uci` with a present `san` comes back as `undefined` (lines 78 and 89) and lands in the request's move list (lines 44 and 55). Neither case is modelled.
- FEN, UCI and SAN strings are opaque. Only the exact matches that the castling normaliser performs are modelled.
- The `emit` callback stored in each `Work` is not a field of the record. The controller's `Emit` method stands for it: the closure captures the controller and its work.
- `VariantKey` is modelled as a string.
- What the engine does with its construction options (`minDepth` 8, `maxDepth` 20, the core count, `multiPv` 3) is not modelled; the controller only records them.
- Promises are reduced to a call and a later settlement. Their ordering relative to each other is free, but the value `init()` passes back to its caller, including its rejection, is not modelled; only its effect on `initialized` is. In the value-level transitions, a settlement with no promise pending does nothing; the runtime never delivers one, and the class's settling methods require a pending promise.
- CevalCtrl.Controller.Start: the source throws a `TypeError` when an enabled controller is started with no nodes. The method requires nodes when enabled, and `StartStep` leaves the state unchanged in that case (the throw happens before any change); the exception itself is not modelled.
