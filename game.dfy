/**
 * The page's session object: one mutable record that the event handlers
 * update in place. Each state-changing method is proved to move the record
 * exactly as the matching transition of module Rules does, so the invariant
 * and the run properties proved there hold of the object.
 */
module Game {
  import opened Cart
  import Rules

  class Session {
    var scene: Rules.Scene
    var inventory: seq<Product>
    var points: nat
    var catalogue: seq<Product>
    const enemies: seq<Rules.Enemy>
    var enemyIndex: nat
    var selected: set<string>
    var next: Rules.NextAction

    /** The record's current value. */
    function Model(): Rules.State
      reads this
    {
      Rules.State(scene, inventory, points, catalogue, enemies, enemyIndex, selected, next)
    }

    ghost predicate Valid()
      reads this
    {
      Rules.Inv(Model()) && enemies == Rules.Roster
    }

    /** The record as the page creates it: first screen, empty inventory and catalogue, no points, first enemy. */
    constructor ()
      ensures Valid()
      ensures Model() == Rules.Initial()
    {
      scene := Rules.Intro;
      inventory := [];
      points := 0;
      catalogue := [];
      enemies := Rules.Roster;
      enemyIndex := 0;
      selected := {};
      next := Rules.Hidden;
    }

    /** Shows a scene and runs its hook. */
    method ChangeScene(target: Rules.Scene, draw: seq<Product>, combat: Rules.Combat)
      requires Valid()
      modifies this
      ensures Valid()
      ensures Model() == Rules.ChangeScene(old(Model()), target, draw, combat)
      decreases if target == Rules.Battle then 2 else 0
    {
      scene := target;
      if target == Rules.Market {
        EnterMarket(draw);
      }
      // The status screen only displays the player's totals.
      if target == Rules.Battle {
        StartBattle(combat);
      }
      // The final screen only displays the rank of the points (ShowRanking).
    }

    /** Fills the catalogue with `draw`, a freshly generated one, only while it is empty. */
    method EnterMarket(draw: seq<Product>)
      requires Valid()
      modifies this
      ensures Valid()
      ensures Model() == Rules.EnterMarket(old(Model()), draw)
    {
      if |catalogue| == 0 {
        catalogue := draw;
      }
    }

    /** The button of the shop card titled `name`. */
    method ToggleCart(name: string)
      requires Valid()
      modifies this
      ensures Valid()
      ensures Model() == Rules.Toggle(old(Model()), name)
    {
      ghost var before := Model();
      var found := FindProduct(catalogue, name);
      if found.None? {
        return;
      }
      var product := found.value;
      var nowSelected := name !in selected;
      selected := if nowSelected then selected + {name} else selected - {name};
      if nowSelected {
        inventory := inventory + [product];
      } else {
        var index := FindIndexByName(inventory, product.name);
        if index > -1 {
          RemoveFirstAt(inventory, product.name, index);
          inventory := inventory[..index] + inventory[index + 1..];
        }
      }
      Rules.ToggleKeepsInv(before, name);
    }

    /** Fights the current enemy, or goes to the final screen when none is left. */
    method StartBattle(combat: Rules.Combat)
      requires Valid()
      modifies this
      ensures Valid()
      ensures Model() == Rules.StartBattle(old(Model()), combat)
      ensures points >= old(points)
      decreases 1
    {
      if enemyIndex >= |enemies| {
        ChangeScene(Rules.Final, [], combat);
        return;
      }
      var enemy := enemies[enemyIndex];
      var result := combat(enemy, inventory);
      if result.victory {
        points := points + result.points;
        enemyIndex := enemyIndex + 1;
        next := Rules.NextRound;
      } else {
        next := Rules.Reload;
      }
    }

    /** The battle screen's button. */
    method PressNext(combat: Rules.Combat)
      requires Valid()
      modifies this
      ensures Valid()
      ensures Model() == Rules.PressNext(old(Model()), combat)
      ensures points >= old(points)
    {
      match next
      case Hidden =>
      case NextRound =>
        if enemyIndex < |enemies| {
          StartBattle(combat);
        } else {
          ChangeScene(Rules.Final, [], combat);
        }
      case Reload =>
        // The page reloads and this session is discarded.
    }

    /**
     * The final screen: the score and the rank that `distinguish` gives it. In
     * a state the page reaches with the battle resolver `combat`, the score is
     * the sum of the results of the enemies beaten. `Valid()` does not carry
     * Reach: a caller establishes it with Rules.ScoreIsWinnings from the events
     * that led to this state.
     */
    method ShowRanking<R>(distinguish: nat -> R, ghost combat: Rules.Combat) returns (rank: R, score: nat)
      requires Rules.Reach(Model(), combat)
      ensures score == Rules.Winnings(Model(), 0, enemyIndex, combat)
      ensures rank == distinguish(Rules.Winnings(Model(), 0, enemyIndex, combat))
    {
      rank := distinguish(points);
      score := points;
    }
  }
}
