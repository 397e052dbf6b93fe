# Game session of "Aventura en el Reino"

A model of the session logic of a small browser role-playing demo. The player
opens a shop, buys items by marking product cards, looks at their status, then
fights a fixed roster of four enemies one after another. Each victory earns
points and moves on to the next enemy. A defeat ends the game until the page is
reloaded. The final screen shows a rank computed from the points.

The page keeps all of this in one mutable record, `juego`. Event handlers update
it in place:

- `cambiarEscena` shows a scene and runs its hook;
- `cargarMercado` fills the catalogue cache;
- `toggleCart` buys or gives back an item;
- `iniciarBatalla` and the battle button's handler fight and advance;
- `mostrarRanking` reads the points.

The model has four modules:

- `Wrappers`: `Option`.
- `Cart`: products and the two name-keyed operations on product sequences.
  `FindProduct` is the catalogue lookup. `RemoveFirst` takes out the first entry
  with a given name; it is specified by `findIndex` + `splice`, and the
  loop `FindIndexByName` is that `findIndex`.
- `Rules`: the session record as a value (`State`), one transition function per
  handler, the events (`Event`) with their dispatcher `Step`, runs of events
  (`Run`), and `Enabled` (which buttons can be pressed in which scene). It also
  holds the session invariant `Inv` and the lemmas:
  - the catalogue cache;
  - what a shop card does;
  - battle outcomes and the enemy-index bound;
  - points never decreasing;
  - defeat being terminal;
  - four victories leading to the final screen;
  - the score on the final screen being exactly the sum of the beaten
    enemies' results.
- `Game`: the class `Session`, whose fields are the record's fields. Every
  state-changing method is proved to change the object exactly as the matching `Rules`
  transition does (`Model() == Rules.X(old(Model()), ...)`) and to keep
  `Valid()`, the invariant.

The collaborators the page imports are inputs of the model:

- The battle resolver `combate` is a function parameter of type
  `Rules.Combat`. It gives the result from the enemy and the player's inventory.
- The randomly discounted catalogue is the `draw` argument of a navigation.
- The ranking `distinguirJugador` is the function argument of `ShowRanking`.

## Model

| member | source | states |
|---|---|---|
| Cart.FindProduct | src/Main.js:99-101 | the lookup finds nothing exactly when no catalogue product has the name; a product it finds carries that name and is the first catalogue product that does |
| Cart.FindIndexByName | src/Main.js:120 | the index is -1 exactly when no entry has the name; otherwise the entry there has the name and none before it does |
| Cart.RemoveFirst | src/Main.js:120-123 | with no entry of that name the inventory is unchanged; with one, exactly one entry fewer; every remaining entry was there before |
| Cart.RemoveFirstNames | src/Main.js:120-123 | removal takes exactly one copy of the name out of the inventory's names (none if absent) |
| Cart.RemoveFirstAt | src/Main.js:120-123 | removing by name equals splicing out the first index whose entry has that name, so the order of the others is kept |
| Cart.RemoveFirstAfterAppend | src/Main.js:105-123 | appending a product whose name is not in the inventory and then removing by that name restores the inventory |
| Rules.Initial | src/Main.js:10-20 | the starting record satisfies the session invariant and has four enemies |
| Rules.Step | src/Main.js:176-190 | no event changes the roster or lowers the points; the index grows by at most one, only when an enemy was left, and the points change only together with it |
| Rules.EnterMarketCaches | src/Main.js:46-49 | the catalogue is replaced only when empty; a filled one stays, so entering the shop twice equals entering once |
| Rules.ToggleUnknownIsNoop | src/Main.js:99-101 | a card whose name the catalogue lacks changes nothing, neither inventory nor marks |
| Rules.SelectAppends | src/Main.js:103-108 | marking a card appends its product with no budget check; earlier entries, points, catalogue and index stay |
| Rules.DeselectRemovesFirst | src/Main.js:117-123 | unmarking removes exactly the first entry with that name, keeping the others in order; with no such entry the inventory is unchanged; points, catalogue and index stay |
| Rules.ToggleKeepsInv | src/Main.js:96-128 | a card toggle keeps the invariant: each entry is its catalogue product, and each marked card has exactly one inventory entry |
| Rules.ToggleTwiceRestores | src/Main.js:96-128 | marking then unmarking an unmarked card gives back the identical session |
| Rules.BattleWithoutEnemy | src/Main.js:141-146 | with the index at or past the roster, no one is fought and only the scene changes, to the final screen |
| Rules.BattleOutcome | src/Main.js:170-198 | a victory adds exactly the result's points and increments the index; a defeat keeps both and leaves the restart button |
| Rules.ContinueIsBattle | src/Main.js:184-190 | the next-round handler behaves exactly as starting a battle, final screen included |
| Rules.StepKeepsInv | src/Main.js:10-20 | every event keeps the invariant, including the index bound of at most the roster length |
| Rules.RunKeepsInv | src/Main.js:10-20 | every sequence of events keeps the invariant |
| Rules.RunMonotone | src/Main.js:179-180 | over any run the points never decrease, the index never goes back and the roster stays |
| Rules.DefeatIsTerminal | src/Main.js:192-198 | after a defeat no sequence of pressable buttons changes the session |
| Rules.WinningStreak | src/Main.js:184-190 | n next-round presses against n beaten enemies advance the index by n and add exactly their points |
| Rules.StepReach | src/Main.js:176-190 | every enabled event keeps the reachable-state property: invariant, no return from the battle and final screens after a victory, and points equal to the beaten enemies' results |
| Rules.RunReach | src/Main.js:176-190 | every sequence of enabled events keeps that property |
| Rules.ScoreIsWinnings | src/Main.js:179-180 | in every state reached from the start, the points are exactly the sum of the results of the enemies beaten so far |
| Rules.FourVictoriesThenFinal | src/Main.js:184-190 | from the enemy list, four straight victories leave the index at 4 with all four results' points, and the next press goes to the final screen |
| Game.Session.constructor | src/Main.js:10-20 | the new record is the starting session and satisfies the invariant |
| Game.Session.ChangeScene | src/Main.js:23-43 | shows the scene and runs its hook (shop: catalogue cache, battle: start a battle) as Rules.ChangeScene, keeping the invariant |
| Game.Session.EnterMarket | src/Main.js:46-49 | replaces the catalogue only when it is empty, as Rules.EnterMarket |
| Game.Session.ToggleCart | src/Main.js:96-128 | in place, via findIndex and splice, does what Rules.Toggle does, keeping the invariant |
| Game.Session.StartBattle | src/Main.js:140-199 | updates points, index, scene and button as Rules.StartBattle, keeping the invariant; points never decrease |
| Game.Session.PressNext | src/Main.js:184-197 | fights again or goes to the final screen as Rules.PressNext; a restart leaves the session as it is |
| Game.Session.ShowRanking | src/Main.js:202-209 | in a reached state, the score shown is the sum of the beaten enemies' results, and the rank shown is the ranking of that sum |

## Left out

- Rendering is left out because it does not affect the session state: the
  `activa` class toggling, the shop card markup (src/Main.js:51-69), the
  inventory bar (src/Main.js:73-93), the status figures (src/Main.js:131-137),
  and the battle texts and pictures.
- Animations and timers (src/Main.js:114, 148-167) are left out; they are
  visual only.
- Game.Session.PressNext: restart calls `location.reload()`, which throws the
  whole session away and starts a new one. This happens outside the session,
  so the model leaves the session as it is. That is why the points never
  decrease within a session.
- The battle formula, the enemy classes, the player's stat totals, the
  ranking thresholds, and catalogue generation with its random discounts and
  price formatting are left out. They live in src/clases/Jugador.js,
  src/clases/Enemigo.js, src/modulos/Batalla.js, src/modulos/Ranking.js and
  src/modulos/Mercado.js, which are not part of this model. Battle results,
  rankings and generated catalogues are inputs instead.
- Rules.Initial: src/clases/Jugador.js is not part of this model, so the model
  assumes that `new Jugador(...)` (src/Main.js:11) starts with 0 points and an
  empty inventory.
- Cart.FindProduct: `buscarProducto` is in src/modulos/Mercado.js, which is not
  part of this model. The model assumes it is an exact-name lookup returning the
  first match.
- `combate(enemigo, juego.jugador)` (src/Main.js:170) receives the whole player;
  the model's resolver receives only the inventory. The player's base stats
  are fixed for the session, and the points are assumed not to affect a
  battle. One deterministic resolver serves a whole run of events.
- Game.Session.ToggleCart: `comprarObjeto` is in src/clases/Jugador.js, which is
  not part of this model. The model assumes it appends the product to the
  inventory. `sumarPuntos` is likewise modelled as adding the points.
- Points are natural numbers, and the boss multiplier 1.5 is kept as the
  percentage 150. Floating-point points are not modelled.
- A shop card's selected mark is keyed by the card's title. Two cards with the
  same title would share one mark; the catalogue renders one card per product.
- The scene constants file src/constantes.js and the page's HTML are not part of
  this model. So the scenes are an enumeration of the six screens, and the page
  is assumed to start on the first screen with the battle button unassigned.
- `Rules.Enabled` reads the button wiring (src/Main.js:212-216) assuming only
  the buttons of the scene on screen can be pressed. The wiring itself is
  browser plumbing and is not modelled.
