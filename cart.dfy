/**
 * The shop catalogue and the player's inventory. Both are ordered sequences of
 * products, and the shop looks products up by their display name.
 */
module Cart {
  import opened Wrappers

  /**
   * A shop product, with the fields the session reads: the name shown on its
   * card, its picture and its stat bonus. Prices and discounts belong to the
   * catalogue generator and are not modelled.
   */
  datatype Product = Product(name: string, image: string, bonus: int)

  /** The names of a sequence of products, position by position. */
  function Names(products: seq<Product>): (names: seq<string>)
    ensures |names| == |products|
  {
    if products == [] then [] else [products[0].name] + Names(products[1..])
  }

  lemma {:induction false} NameAt(products: seq<Product>, i: nat)
    requires i < |products|
    ensures Names(products)[i] == products[i].name
  {
    if i > 0 {
      NameAt(products[1..], i - 1);
    }
  }

  /** A name occurs among the names exactly when some product carries it. */
  lemma NameIn(products: seq<Product>, name: string)
    ensures name in Names(products) <==> exists i :: 0 <= i < |products| && products[i].name == name
  {
    if name in Names(products) {
      var i :| 0 <= i < |products| && Names(products)[i] == name;
      NameAt(products, i);
    }
    if exists i :: 0 <= i < |products| && products[i].name == name {
      var i :| 0 <= i < |products| && products[i].name == name;
      NameAt(products, i);
    }
  }

  lemma {:induction false} NamesAppend(products: seq<Product>, p: Product)
    ensures Names(products + [p]) == Names(products) + [p.name]
  {
    if products != [] {
      assert (products + [p])[1..] == products[1..] + [p];
      NamesAppend(products[1..], p);
    }
  }

  /**
   * The catalogue lookup by exact name (`buscarProducto`): the first product
   * with that name, or None when no product has it.
   */
  function FindProduct(catalogue: seq<Product>, name: string): (found: Option<Product>)
    ensures found.None? <==> name !in Names(catalogue)
    ensures found.Some? ==> found.value.name == name && found.value in catalogue
    ensures found.Some? ==>
      exists k :: 0 <= k < |catalogue| && catalogue[k] == found.value &&
        forall j :: 0 <= j < k ==> catalogue[j].name != name
  {
    if catalogue == [] then None
    else if catalogue[0].name == name then Some(catalogue[0])
    else
      var rest := FindProduct(catalogue[1..], name);
      FirstMatchShift(catalogue, name, rest);
      rest
  }

  /** A first match in the tail, past a head of another name, is a first match in the whole catalogue. */
  lemma FirstMatchShift(catalogue: seq<Product>, name: string, rest: Option<Product>)
    requires catalogue != [] && catalogue[0].name != name
    requires rest.Some? ==>
      exists k :: 0 <= k < |catalogue[1..]| && catalogue[1..][k] == rest.value &&
        forall j :: 0 <= j < k ==> catalogue[1..][j].name != name
    ensures rest.Some? ==>
      exists k :: 0 <= k < |catalogue| && catalogue[k] == rest.value &&
        forall j :: 0 <= j < k ==> catalogue[j].name != name
  {
    if rest.Some? {
      var k :| 0 <= k < |catalogue[1..]| && catalogue[1..][k] == rest.value &&
        forall j :: 0 <= j < k ==> catalogue[1..][j].name != name;
      assert catalogue[k + 1] == rest.value;
      forall j | 0 <= j < k + 1
        ensures catalogue[j].name != name
      {
        if j > 0 {
          assert catalogue[j] == catalogue[1..][j - 1];
        }
      }
    }
  }

  /**
   * The inventory after taking out its first entry named `name`; an inventory
   * with no such entry is returned as it is.
   */
  function RemoveFirst(inventory: seq<Product>, name: string): (rest: seq<Product>)
    ensures name !in Names(inventory) ==> rest == inventory
    ensures name in Names(inventory) ==> |rest| == |inventory| - 1
    ensures forall p :: p in rest ==> p in inventory
  {
    if inventory == [] then []
    else if inventory[0].name == name then inventory[1..]
    else [inventory[0]] + RemoveFirst(inventory[1..], name)
  }

  /** Removing the first entry named `name` takes exactly one copy of `name` out of the names, if there was one. */
  lemma {:induction false} RemoveFirstNames(inventory: seq<Product>, name: string)
    ensures multiset(Names(RemoveFirst(inventory, name))) == multiset(Names(inventory)) - multiset{name}
  {
    if inventory == [] {
    } else if inventory[0].name == name {
      assert Names(inventory) == [name] + Names(inventory[1..]);
    } else {
      var tail := RemoveFirst(inventory[1..], name);
      RemoveFirstNames(inventory[1..], name);
      assert ([inventory[0]] + tail)[1..] == tail;
      assert Names([inventory[0]] + tail) == [inventory[0].name] + Names(tail);
      assert Names(inventory) == [inventory[0].name] + Names(inventory[1..]);
      TakeOutPastOther(multiset(Names(inventory[1..])), inventory[0].name, name);
    }
  }

  /** Taking out one copy of `name` commutes with adding a different element. */
  lemma TakeOutPastOther(m: multiset<string>, other: string, name: string)
    requires other != name
    ensures multiset{other} + (m - multiset{name}) == (multiset{other} + m) - multiset{name}
  {
    assert forall x :: (multiset{other} + (m - multiset{name}))[x] == ((multiset{other} + m) - multiset{name})[x];
  }

  /**
   * Removing the first entry named `name` is the same as splicing out the
   * element at the first index whose entry has that name.
   */
  lemma {:induction false} RemoveFirstAt(inventory: seq<Product>, name: string, k: nat)
    requires k < |inventory| && inventory[k].name == name
    requires forall j :: 0 <= j < k ==> inventory[j].name != name
    ensures RemoveFirst(inventory, name) == inventory[..k] + inventory[k + 1..]
  {
    if k > 0 {
      var tail := inventory[1..];
      assert inventory[0].name != name;
      forall j | 0 <= j < k - 1
        ensures tail[j].name != name
      {
        assert tail[j] == inventory[j + 1];
      }
      RemoveFirstAt(tail, name, k - 1);
      calc {
        RemoveFirst(inventory, name);
        [inventory[0]] + RemoveFirst(tail, name);
        [inventory[0]] + (tail[..k - 1] + tail[k..]);
        { assert tail[k..] == inventory[k + 1..]; assert [inventory[0]] + tail[..k - 1] == inventory[..k]; }
        inventory[..k] + inventory[k + 1..];
      }
    }
  }

  /**
   * Adding a product to an inventory that holds nothing of that name and then
   * removing the first entry of that name gives back the inventory.
   */
  lemma {:induction false} RemoveFirstAfterAppend(inventory: seq<Product>, p: Product)
    requires p.name !in Names(inventory)
    ensures RemoveFirst(inventory + [p], p.name) == inventory
  {
    var grown := inventory + [p];
    forall j | 0 <= j < |inventory|
      ensures grown[j].name != p.name
    {
      NameAt(inventory, j);
    }
    RemoveFirstAt(grown, p.name, |inventory|);
    assert grown[..|inventory|] == inventory;
  }

  /**
   * `findIndex` over the inventory by name: the first index whose entry has the
   * given name, or -1 when there is none.
   */
  method FindIndexByName(inventory: seq<Product>, name: string) returns (index: int)
    ensures -1 <= index < |inventory|
    ensures index == -1 <==> name !in Names(inventory)
    ensures 0 <= index ==> inventory[index].name == name
    ensures 0 <= index ==> forall j :: 0 <= j < index ==> inventory[j].name != name
  {
    var i := 0;
    while i < |inventory|
      invariant 0 <= i <= |inventory|
      invariant forall j :: 0 <= j < i ==> inventory[j].name != name
    {
      if inventory[i].name == name {
        NameAt(inventory, i);
        return i;
      }
      i := i + 1;
    }
    NameIn(inventory, name);
    index := -1;
  }
}
