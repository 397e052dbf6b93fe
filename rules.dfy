/**
 * The game session of the role-playing demo as a state machine over values:
 * the session record, the scenes, the events the page reacts to, one
 * transition function per handler, the invariant every transition keeps, and
 * the properties of whole runs.
 */
module Rules {
  import opened Wrappers
  import opened Cart

  /** The six screens of the demo; exactly one is shown at a time. */
  datatype Scene = Intro | Market | Status | Enemies | Battle | Final

  /**
   * An opponent: attack and health; a boss also carries a damage multiplier,
   * written as a percentage (150 stands for 1.5).
   */
  datatype Enemy =
    | Enemy(name: string, image: string, attack: nat, health: nat)
    | Boss(name: string, image: string, attack: nat, health: nat, multiplierPercent: nat)

  /** What one battle produced: who won, and the points the player earns. */
  datatype CombatResult = CombatResult(victory: bool, points: nat)

  /**
   * The handler currently attached to the battle screen's button: none yet,
   * "next round" after a victory, or "restart" (a page reload) after a defeat.
   */
  datatype NextAction = Hidden | NextRound | Reload

  /** The battle resolver: the outcome against an enemy, given the player's inventory. */
  type Combat = (Enemy, seq<Product>) -> CombatResult

  /**
   * The session record: the scene on screen, the player's inventory and points,
   * the cached shop catalogue, the fixed enemy roster and the index of the next
   * enemy, the names of the shop cards marked as selected, and the battle
   * button's handler.
   */
  datatype State = State(
    scene: Scene,
    inventory: seq<Product>,
    points: nat,
    catalogue: seq<Product>,
    enemies: seq<Enemy>,
    enemyIndex: nat,
    selected: set<string>,
    next: NextAction)

  /** The events the page reacts to: a navigation button, a shop card's button, the battle button. */
  datatype Event =
    | Navigate(target: Scene, draw: seq<Product>)
    | ToggleCard(name: string)
    | Next

  /** The four opponents, fought in this order; the last is the boss. */
  const Roster: seq<Enemy> := [
    Enemy("Recluta T", "img/personaje/enemigos/enemigo_debil_1.png", 10, 50),
    Enemy("Sniper", "img/personaje/enemigos/enemigo_debil_2.png", 20, 80),
    Enemy("Mercenario", "img/personaje/enemigos/enemigo_medio.png", 30, 100),
    Boss("Líder Ghost", "img/personaje/enemigos/jefe_ghost.png", 45, 200, 150)
  ]

  /** The session as the page starts it. */
  function Initial(): (st: State)
    ensures Inv(st) && |st.enemies| == 4
  {
    State(Intro, [], 0, [], Roster, 0, {}, Hidden)
  }

  /**
   * The session invariant: the enemy index never passes the roster; every
   * inventory entry is the product the catalogue lists under its name; and the
   * inventory holds exactly one entry for each selected card and nothing else.
   */
  ghost predicate Inv(st: State) {
    && st.enemyIndex <= |st.enemies|
    && (forall p :: p in st.inventory ==> FindProduct(st.catalogue, p.name) == Some(p))
    && multiset(Names(st.inventory)) == multiset(st.selected)
  }

  /** Opening the shop: the catalogue is generated only while it is still empty. */
  function EnterMarket(st: State, draw: seq<Product>): State {
    if |st.catalogue| == 0 then st.(catalogue := draw) else st
  }

  /**
   * A shop card's button: a name the catalogue does not know does nothing;
   * otherwise the card's mark flips, and a newly marked card buys the product
   * while an unmarked one gives back the first inventory entry of that name.
   */
  function Toggle(st: State, name: string): State {
    match FindProduct(st.catalogue, name)
    case None => st
    case Some(p) =>
      if name in st.selected then
        st.(selected := st.selected - {name}, inventory := RemoveFirst(st.inventory, p.name))
      else
        st.(selected := st.selected + {name}, inventory := st.inventory + [p])
  }

  /**
   * Starting a battle: with no enemy left the session goes to the final
   * screen; otherwise the current enemy is fought, a victory adds the points
   * and moves to the next enemy, and a defeat leaves only the restart button.
   */
  function StartBattle(st: State, combat: Combat): State {
    if st.enemyIndex >= |st.enemies| then st.(scene := Final)
    else
      var result := combat(st.enemies[st.enemyIndex], st.inventory);
      if result.victory then
        st.(points := st.points + result.points, enemyIndex := st.enemyIndex + 1, next := NextRound)
      else
        st.(next := Reload)
  }

  /**
   * The battle screen's button. "Next round" fights again while an enemy is
   * left and goes to the final screen otherwise. The restart reloads the page,
   * which throws the whole session away: nothing of this session changes.
   */
  function PressNext(st: State, combat: Combat): State {
    match st.next
    case Hidden => st
    case NextRound =>
      if st.enemyIndex < |st.enemies| then StartBattle(st, combat) else st.(scene := Final)
    case Reload => st
  }

  /**
   * Showing a scene and running its hook: the shop fills its catalogue, the
   * battle screen starts a battle; the status and final screens only display.
   */
  function ChangeScene(st: State, target: Scene, draw: seq<Product>, combat: Combat): State {
    var shown := st.(scene := target);
    if target == Market then EnterMarket(shown, draw)
    else if target == Battle then StartBattle(shown, combat)
    else shown
  }

  /** One event, dispatched to its handler. */
  function Step(st: State, ev: Event, combat: Combat): (r: State)
    ensures r.enemies == st.enemies
    ensures r.points >= st.points
    ensures st.enemyIndex <= r.enemyIndex <= st.enemyIndex + 1
    ensures r.points != st.points ==> r.enemyIndex == st.enemyIndex + 1
    ensures r.enemyIndex != st.enemyIndex ==> st.enemyIndex < |st.enemies|
  {
    match ev
    case Navigate(target, draw) => ChangeScene(st, target, draw, combat)
    case ToggleCard(name) => Toggle(st, name)
    case Next => PressNext(st, combat)
  }

  /** A sequence of events, one after another. */
  function Run(st: State, evs: seq<Event>, combat: Combat): State
    decreases |evs|
  {
    if evs == [] then st else Run(Step(st, evs[0], combat), evs[1..], combat)
  }

  /** The scene a screen's navigation button leads to. */
  function NavigationTarget(scene: Scene): Option<Scene> {
    match scene
    case Intro => Some(Market)
    case Market => Some(Status)
    case Status => Some(Enemies)
    case Enemies => Some(Battle)
    case _ => None
  }

  /**
   * Whether an event can happen: only the buttons of the scene on screen can
   * be pressed, and the battle button only once it has a handler.
   */
  predicate Enabled(st: State, ev: Event) {
    match ev
    case Navigate(target, _) => NavigationTarget(st.scene) == Some(target)
    case ToggleCard(_) => st.scene == Market
    case Next => st.scene == Battle && st.next != Hidden
  }

  /** Every event of the sequence is enabled when its turn comes. */
  predicate Trace(st: State, evs: seq<Event>, combat: Combat)
    decreases |evs|
  {
    evs == [] || (Enabled(st, evs[0]) && Trace(Step(st, evs[0], combat), evs[1..], combat))
  }

  // ---------------------------------------------------------------------------
  // The shop

  /** Re-entering the shop once the catalogue is filled leaves the session as it is. */
  lemma EnterMarketCaches(st: State, draw: seq<Product>)
    ensures |st.catalogue| > 0 ==> EnterMarket(st, draw) == st
    ensures |st.catalogue| == 0 ==> EnterMarket(st, draw) == st.(catalogue := draw)
    ensures EnterMarket(EnterMarket(st, draw), draw) == EnterMarket(st, draw)
  {
  }

  /** A card whose name the catalogue does not know changes nothing at all. */
  lemma ToggleUnknownIsNoop(st: State, name: string)
    requires name !in Names(st.catalogue)
    ensures Toggle(st, name) == st
  {
  }

  /**
   * Marking a card buys its product with no budget check: the inventory grows
   * by exactly that product at the end and everything else stays.
   */
  lemma SelectAppends(st: State, name: string)
    requires name in Names(st.catalogue) && name !in st.selected
    ensures var r := Toggle(st, name);
      && r.inventory == st.inventory + [FindProduct(st.catalogue, name).value]
      && r.inventory[..|st.inventory|] == st.inventory
      && r.selected == st.selected + {name}
      && r.points == st.points && r.catalogue == st.catalogue && r.enemyIndex == st.enemyIndex
  {
  }

  /**
   * Unmarking a card takes out exactly the first inventory entry with that
   * name, keeping the order of the others; with no such entry the inventory
   * stays as it is.
   */
  lemma {:induction false} DeselectRemovesFirst(st: State, name: string)
    requires name in Names(st.catalogue) && name in st.selected
    ensures var r := Toggle(st, name);
      && r.selected == st.selected - {name}
      && r.points == st.points && r.catalogue == st.catalogue && r.enemyIndex == st.enemyIndex
      && (name !in Names(st.inventory) ==> r.inventory == st.inventory)
      && (forall k ::
            (0 <= k < |st.inventory| && st.inventory[k].name == name &&
             forall j :: 0 <= j < k ==> st.inventory[j].name != name) ==>
            r.inventory == st.inventory[..k] + st.inventory[k + 1..])
  {
    forall k | 0 <= k < |st.inventory| && st.inventory[k].name == name &&
      (forall j :: 0 <= j < k ==> st.inventory[j].name != name)
      ensures Toggle(st, name).inventory == st.inventory[..k] + st.inventory[k + 1..]
    {
      RemoveFirstAt(st.inventory, name, k);
    }
  }

  /** Buying a card's product keeps the invariant. */
  lemma SelectKeepsInv(st: State, name: string, p: Product)
    requires Inv(st) && FindProduct(st.catalogue, name) == Some(p) && name !in st.selected
    ensures Inv(st.(selected := st.selected + {name}, inventory := st.inventory + [p]))
  {
    NamesAppend(st.inventory, p);
    assert multiset(st.selected + {name}) == multiset(st.selected) + multiset{name};
  }

  /** Giving back a card's product keeps the invariant. */
  lemma DeselectKeepsInv(st: State, name: string)
    requires Inv(st) && name in st.selected
    ensures Inv(st.(selected := st.selected - {name}, inventory := RemoveFirst(st.inventory, name)))
  {
    var rest := RemoveFirst(st.inventory, name);
    assert forall p :: p in rest ==> p in st.inventory;
    assert forall p :: p in rest ==> FindProduct(st.catalogue, p.name) == Some(p);
    RemoveFirstNames(st.inventory, name);
    assert multiset(st.selected - {name}) == multiset(st.selected) - multiset{name};
  }

  /** Toggling a card keeps the session invariant. */
  lemma ToggleKeepsInv(st: State, name: string)
    requires Inv(st)
    ensures Inv(Toggle(st, name))
  {
    match FindProduct(st.catalogue, name)
    case None =>
    case Some(p) =>
      if name in st.selected {
        DeselectKeepsInv(st, name);
      } else {
        SelectKeepsInv(st, name, p);
      }
  }

  /**
   * Marking and then unmarking a card that was not marked gives back the very
   * same session: the purchase is undone.
   */
  lemma ToggleTwiceRestores(st: State, name: string)
    requires Inv(st) && name !in st.selected
    ensures Toggle(Toggle(st, name), name) == st
  {
    match FindProduct(st.catalogue, name)
    case None =>
    case Some(p) =>
      assert multiset(Names(st.inventory))[name] == 0;
      RemoveFirstAfterAppend(st.inventory, p);
      assert st.selected + {name} - {name} == st.selected;
  }

  // ---------------------------------------------------------------------------
  // Battles

  /** With every enemy beaten, a battle fights nobody and shows the final screen. */
  lemma BattleWithoutEnemy(st: State, combat: Combat)
    requires st.enemyIndex >= |st.enemies|
    ensures StartBattle(st, combat) == st.(scene := Final)
  {
  }

  /**
   * A victory adds exactly the result's points and moves to the next enemy; a
   * defeat changes neither points nor index.
   */
  lemma BattleOutcome(st: State, combat: Combat)
    requires st.enemyIndex < |st.enemies|
    ensures var result := combat(st.enemies[st.enemyIndex], st.inventory);
      var r := StartBattle(st, combat);
      && (result.victory ==> r.points == st.points + result.points && r.enemyIndex == st.enemyIndex + 1)
      && (!result.victory ==> r.points == st.points && r.enemyIndex == st.enemyIndex && r.next == Reload)
      && r.inventory == st.inventory && r.scene == st.scene
  {
  }

  /**
   * The "next round" handler's own check of the index agrees with the one the
   * battle makes: pressing it is exactly starting a battle.
   */
  lemma ContinueIsBattle(st: State, combat: Combat)
    requires st.next == NextRound
    ensures PressNext(st, combat) == StartBattle(st, combat)
  {
  }

  /** Filling the catalogue keeps the invariant: it only happens while the catalogue, hence the inventory, is empty. */
  lemma EnterMarketKeepsInv(st: State, draw: seq<Product>)
    requires Inv(st)
    ensures Inv(EnterMarket(st, draw))
  {
  }

  /** A battle keeps the invariant: the index only moves past an enemy that exists. */
  lemma StartBattleKeepsInv(st: State, combat: Combat)
    requires Inv(st)
    ensures Inv(StartBattle(st, combat))
  {
  }

  /** Every event keeps the session invariant. */
  lemma StepKeepsInv(st: State, ev: Event, combat: Combat)
    requires Inv(st)
    ensures Inv(Step(st, ev, combat))
  {
    match ev
    case Navigate(target, draw) =>
      var shown := st.(scene := target);
      if target == Market {
        EnterMarketKeepsInv(shown, draw);
      } else if target == Battle {
        StartBattleKeepsInv(shown, combat);
      }
    case ToggleCard(name) =>
      ToggleKeepsInv(st, name);
    case Next =>
      if st.next == NextRound && st.enemyIndex < |st.enemies| {
        StartBattleKeepsInv(st, combat);
      }
  }

  /** Every run keeps the session invariant; with StepKeepsInv, it holds in every state the page reaches. */
  lemma {:induction false} RunKeepsInv(st: State, evs: seq<Event>, combat: Combat)
    requires Inv(st)
    ensures Inv(Run(st, evs, combat))
    decreases |evs|
  {
    if evs != [] {
      StepKeepsInv(st, evs[0], combat);
      RunKeepsInv(Step(st, evs[0], combat), evs[1..], combat);
    }
  }

  /** Over any run the points never decrease, the enemy index never goes back and the roster never changes. */
  lemma {:induction false} RunMonotone(st: State, evs: seq<Event>, combat: Combat)
    ensures var r := Run(st, evs, combat);
      r.points >= st.points && r.enemyIndex >= st.enemyIndex && r.enemies == st.enemies
    decreases |evs|
  {
    if evs != [] {
      RunMonotone(Step(st, evs[0], combat), evs[1..], combat);
    }
  }

  /** After a defeat the session is frozen: no run of enabled events changes it. */
  lemma {:induction false} DefeatIsTerminal(st: State, evs: seq<Event>, combat: Combat)
    requires st.scene == Battle && st.next == Reload
    requires Trace(st, evs, combat)
    ensures Run(st, evs, combat) == st
    decreases |evs|
  {
    if evs != [] {
      assert Step(st, evs[0], combat) == st;
      DefeatIsTerminal(st, evs[1..], combat);
    }
  }

  /** `n` presses of the battle button. */
  function Nexts(n: nat): (evs: seq<Event>)
    ensures |evs| == n
  {
    if n == 0 then [] else [Next] + Nexts(n - 1)
  }

  /** The points won against the `n` enemies from index `from` on. */
  function Winnings(st: State, from: nat, n: nat, combat: Combat): nat
    requires from + n <= |st.enemies|
    decreases n
  {
    if n == 0 then 0
    else combat(st.enemies[from], st.inventory).points + Winnings(st, from + 1, n - 1, combat)
  }

  /**
   * After a victory, `n` more presses of the battle button against `n` enemies
   * that are all beaten move the index on by `n` and add exactly their points.
   */
  lemma {:induction false} WinningStreak(st: State, n: nat, combat: Combat)
    requires st.scene == Battle && st.next == NextRound
    requires st.enemyIndex + n <= |st.enemies|
    requires forall i :: st.enemyIndex <= i < st.enemyIndex + n ==> combat(st.enemies[i], st.inventory).victory
    ensures Trace(st, Nexts(n), combat)
    ensures Run(st, Nexts(n), combat) ==
      st.(enemyIndex := st.enemyIndex + n, points := st.points + Winnings(st, st.enemyIndex, n, combat))
    decreases n
  {
    if n > 0 {
      var after := Step(st, Next, combat);
      assert after == st.(enemyIndex := st.enemyIndex + 1,
        points := st.points + combat(st.enemies[st.enemyIndex], st.inventory).points);
      WinningStreak(after, n - 1, combat);
      WinningsShift(st, after, st.enemyIndex + 1, n - 1, combat);
      assert Nexts(n)[1..] == Nexts(n - 1);
    }
  }

  /** Winnings depend only on the roster and the inventory. */
  lemma {:induction false} WinningsShift(st: State, other: State, from: nat, n: nat, combat: Combat)
    requires st.enemies == other.enemies && st.inventory == other.inventory
    requires from + n <= |st.enemies|
    ensures Winnings(st, from, n, combat) == Winnings(other, from, n, combat)
    decreases n
  {
    if n > 0 {
      WinningsShift(st, other, from + 1, n - 1, combat);
    }
  }

  /**
   * From the enemy list with the roster untouched, four victories in a row
   * leave the index at four with all four enemies' points added, and the next
   * press of the battle button goes to the final screen instead of a fifth
   * battle.
   */
  lemma FourVictoriesThenFinal(st: State, combat: Combat)
    requires st.scene == Enemies && st.enemyIndex == 0 && |st.enemies| == 4
    requires forall i :: 0 <= i < 4 ==> combat(st.enemies[i], st.inventory).victory
    ensures var evs := [Navigate(Battle, [])] + Nexts(3);
      var won := Run(st, evs, combat);
      && Trace(st, evs, combat)
      && won.enemyIndex == 4
      && won.points == st.points + Winnings(st, 0, 4, combat)
      && Enabled(won, Next)
      && Step(won, Next, combat) == won.(scene := Final)
  {
    var evs := [Navigate(Battle, [])] + Nexts(3);
    var first := Step(st, Navigate(Battle, []), combat);
    assert first == st.(scene := Battle, enemyIndex := 1, next := NextRound,
      points := st.points + combat(st.enemies[0], st.inventory).points);
    WinningStreak(first, 3, combat);
    WinningsShift(st, first, 1, 3, combat);
    assert evs[1..] == Nexts(3);
  }

  // ---------------------------------------------------------------------------
  // The score

  /**
   * What holds in every state the page reaches with one battle resolver: the
   * session invariant; once an enemy is beaten the page never leaves the
   * battle and final screens; and the points are exactly the results of the
   * enemies beaten so far.
   */
  ghost predicate Reach(st: State, combat: Combat) {
    && Inv(st)
    && (st.enemyIndex > 0 ==> st.scene == Battle || st.scene == Final)
    && st.points == Winnings(st, 0, st.enemyIndex, combat)
  }

  /** Winnings over one more enemy add that enemy's result. */
  lemma {:induction false} WinningsExtend(st: State, from: nat, n: nat, combat: Combat)
    requires from + n < |st.enemies|
    ensures Winnings(st, from, n + 1, combat) ==
      Winnings(st, from, n, combat) + combat(st.enemies[from + n], st.inventory).points
    decreases n
  {
    if n > 0 {
      WinningsExtend(st, from + 1, n - 1, combat);
    }
  }

  /** A battle from a reached state with the battle screen shown gives a reached state. */
  lemma StartBattleReach(st: State, combat: Combat)
    requires Inv(st) && st.scene == Battle
    requires st.points == Winnings(st, 0, st.enemyIndex, combat)
    ensures Reach(StartBattle(st, combat), combat)
  {
    StartBattleKeepsInv(st, combat);
    var r := StartBattle(st, combat);
    if st.enemyIndex < |st.enemies| && combat(st.enemies[st.enemyIndex], st.inventory).victory {
      WinningsExtend(st, 0, st.enemyIndex, combat);
      WinningsShift(st, r, 0, st.enemyIndex + 1, combat);
    } else {
      WinningsShift(st, r, 0, st.enemyIndex, combat);
    }
  }

  /** Every enabled event keeps Reach. */
  lemma StepReach(st: State, ev: Event, combat: Combat)
    requires Reach(st, combat) && Enabled(st, ev)
    ensures Reach(Step(st, ev, combat), combat)
  {
    StepKeepsInv(st, ev, combat);
    match ev
    case Navigate(target, draw) =>
      if target == Battle {
        var shown := st.(scene := target);
        WinningsShift(st, shown, 0, st.enemyIndex, combat);
        StartBattleReach(shown, combat);
      }
    case ToggleCard(name) =>
    case Next =>
      if st.next == NextRound && st.enemyIndex < |st.enemies| {
        StartBattleReach(st, combat);
      } else {
        WinningsShift(st, PressNext(st, combat), 0, st.enemyIndex, combat);
      }
  }

  /** Every run of enabled events keeps Reach. */
  lemma {:induction false} RunReach(st: State, evs: seq<Event>, combat: Combat)
    requires Reach(st, combat) && Trace(st, evs, combat)
    ensures Reach(Run(st, evs, combat), combat)
    decreases |evs|
  {
    if evs != [] {
      StepReach(st, evs[0], combat);
      RunReach(Step(st, evs[0], combat), evs[1..], combat);
    }
  }

  /**
   * In every state the page reaches from its start, the points are exactly the
   * sum of the results of the enemies beaten so far.
   */
  lemma ScoreIsWinnings(evs: seq<Event>, combat: Combat)
    requires Trace(Initial(), evs, combat)
    ensures var st := Run(Initial(), evs, combat);
      Reach(st, combat) && st.points == Winnings(st, 0, st.enemyIndex, combat)
  {
    RunReach(Initial(), evs, combat);
  }
}
