/** The player store: name, vital statistics and an inventory kept as a plain
    list of item ids. */
module PlayerStore {
  import opened Seqs
  import LootStore

  datatype PlayerState = PlayerState(name: string, health: int, hunger: int, radiation: int, inventory: seq<string>)

  const StartingInventory: seq<string> := ["pistol", "pistol-ammo", "medkit", "canned-meat", "water", "flashlight"]

  const InitialPlayer := PlayerState("Выживший", 100, 50, 0, StartingInventory)

  /** The vital statistics are within 0..100. */
  predicate VitalsInRange(p: PlayerState) {
    0 <= p.health <= 100 && 0 <= p.hunger <= 100 && 0 <= p.radiation <= 100
  }

  /** The starting player has in-range vitals and six distinct catalog items. */
  lemma InitialPlayerWellFormed()
    ensures VitalsInRange(InitialPlayer)
    ensures |InitialPlayer.inventory| == 6
    ensures forall i :: 0 <= i < 6 ==> InitialPlayer.inventory[i] in LootStore.Catalog
    ensures forall i, j :: 0 <= i < j < 6 ==> InitialPlayer.inventory[i] != InitialPlayer.inventory[j]
  {
  }

  /** `setName(name)`: replaces the name only. */
  function SetName(p: PlayerState, name: string): (r: PlayerState)
    ensures r.name == name
    ensures r.(name := p.name) == p
  {
    p.(name := name)
  }

  /** `takeDamage(amount)`: health drops by `amount` but not below 0. There is
      no upper clamp, so a negative amount heals without limit. */
  function TakeDamage(p: PlayerState, amount: int): (r: PlayerState)
    ensures r.health >= 0
    ensures amount <= p.health ==> r.health + amount == p.health
    ensures amount > p.health ==> r.health == 0
    ensures r.(health := p.health) == p
  {
    p.(health := if p.health - amount > 0 then p.health - amount else 0)
  }

  /** Healing through a negative amount can take health past 100. */
  lemma TakeDamageHasNoUpperClamp()
    ensures TakeDamage(InitialPlayer, -10).health == 110
    ensures !VitalsInRange(TakeDamage(InitialPlayer, -10))
  {
  }

  /** `eat(amount)`: hunger drops by `amount` but not below 0. */
  function Eat(p: PlayerState, amount: int): (r: PlayerState)
    ensures r.hunger >= 0
    ensures amount <= p.hunger ==> r.hunger + amount == p.hunger
    ensures amount > p.hunger ==> r.hunger == 0
    ensures r.(hunger := p.hunger) == p
  {
    p.(hunger := if p.hunger - amount > 0 then p.hunger - amount else 0)
  }

  /** `Array.prototype.includes`: a front-to-back scan. */
  function Includes(s: seq<string>, x: string): (b: bool)
    ensures b <==> x in s
    decreases |s|
  {
    if |s| == 0 then false
    else
      assert s == [s[0]] + s[1..];
      s[0] == x || Includes(s[1..], x)
  }

  /** `hasItem(itemId)`. */
  function HasItem(p: PlayerState, x: string): (b: bool)
    ensures b <==> exists i :: 0 <= i < |p.inventory| && p.inventory[i] == x
  {
    Includes(p.inventory, x)
  }

  /** `addItem(item)`: appends one id at the end; duplicates are allowed. */
  function AddItem(p: PlayerState, x: string): (r: PlayerState)
    ensures |r.inventory| == |p.inventory| + 1
    ensures r.inventory[..|p.inventory|] == p.inventory && r.inventory[|p.inventory|] == x
    ensures r.(inventory := p.inventory) == p
  {
    p.(inventory := p.inventory + [x])
  }

  lemma AddThenHas(p: PlayerState, x: string)
    ensures HasItem(AddItem(p, x), x)
  {
    assert AddItem(p, x).inventory[|p.inventory|] == x;
  }

  /** The test that keeps ids other than `x`. */
  function NotEqual(x: string): string -> bool {
    y => y != x
  }

  /** `removeItem(itemId)`: removes every occurrence of the id and keeps the
      other ids, with their multiplicities, in order. */
  function RemoveItem(p: PlayerState, x: string): (r: PlayerState)
    ensures !HasItem(r, x)
    ensures IsSubsequence(r.inventory, p.inventory)
    ensures forall y :: y != x ==> multiset(r.inventory)[y] == multiset(p.inventory)[y]
    ensures r.(inventory := p.inventory) == p
  {
    FilterIsSubsequence(NotEqual(x), p.inventory);
    FilterMultiplicities(NotEqual(x), p.inventory);
    p.(inventory := Filter(NotEqual(x), p.inventory))
  }

  /** Removal leaves membership of every other id as it was. */
  lemma RemoveKeepsOthers(p: PlayerState, x: string, y: string)
    requires y != x
    ensures HasItem(RemoveItem(p, x), y) <==> HasItem(p, y)
  {
    assert y in RemoveItem(p, x).inventory <==> y in p.inventory;
  }

  lemma RemoveIdempotent(p: PlayerState, x: string)
    ensures RemoveItem(RemoveItem(p, x), x) == RemoveItem(p, x)
  {
    FilterIdempotent(NotEqual(x), p.inventory);
  }

  /** Adding an id the player lacks and removing it again restores the state. */
  lemma RemoveUndoesAdd(p: PlayerState, x: string)
    requires !HasItem(p, x)
    ensures RemoveItem(AddItem(p, x), x) == p
  {
    FilterAppend(NotEqual(x), p.inventory, [x]);
    FilterKeepsAll(NotEqual(x), p.inventory);
  }
}
