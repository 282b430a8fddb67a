/** The inventory overlay's logic: how an inventory entry is read as
    `category:name`, how the entries are grouped by category, and the lookup
    tables and name formatting used to display them. */
module InventoryView {
  import opened Wrappers
  import opened Seqs
  import opened Text
  import opened Grouping
  import PlayerStore
  import LootStore

  // ---------------------------------------------------------------------------
  // Reading an entry

  /** The first piece of `s.split(sep)` is the text before the first separator. */
  lemma FirstPiece(s: string, sep: char)
    ensures var p := Split(s, sep)[0];
      sep !in p && |p| <= |s| && s[..|p|] == p && (|p| == |s| || s[|p|] == sep)
  {
  }

  /** The category of an entry: the text before its first `:`, or `misc` for
      an entry without one. */
  function CategoryOf(item: string): (c: string)
    ensures ':' in item ==> ':' !in c && |c| < |item| && item[..|c|] == c && item[|c|] == ':'
    ensures ':' !in item ==> c == "misc"
  {
    if ':' in item then
      FirstPiece(item, ':');
      Split(item, ':')[0]
    else "misc"
  }

  /** The shown name of an entry: the text between its first and second `:`
      (or the end), or the whole entry when it has no `:`. */
  function DisplayName(item: string): (n: string)
    ensures ':' !in item ==> n == item
    ensures ':' in item ==>
      var start := |CategoryOf(item)| + 1;
      ':' !in n && start + |n| <= |item| && item[start..start + |n|] == n &&
      (start + |n| == |item| || item[start + |n|] == ':')
  {
    if ':' in item then
      var i := IndexOf(item, ':').value;
      var rest := item[i + 1..];
      assert Split(item, ':') == [item[..i]] + Split(rest, ':');
      FirstPiece(rest, ':');
      Split(item, ':')[1]
    else item
  }

  /** An entry written as `category:name` is read back as that category and name. */
  lemma CategoryAndNameRoundTrip(category: string, name: string)
    requires ':' !in category && ':' !in name
    ensures CategoryOf(category + ":" + name) == category
    ensures DisplayName(category + ":" + name) == name
  {
    var item := category + ":" + name;
    var c := CategoryOf(item);
    assert item[|category|] == ':';
    assert c == category;
    var n := DisplayName(item);
    var start := |category| + 1;
    assert item[start..] == name;
    assert n == item[start..start + |n|] == name[..|n|];
  }

  // ---------------------------------------------------------------------------
  // Grouping

  /** Each entry paired with its category, in inventory order. */
  function Tagged(inv: seq<string>): (entries: seq<(string, string)>)
    ensures |entries| == |inv|
    ensures forall i :: 0 <= i < |inv| ==> entries[i] == (CategoryOf(inv[i]), inv[i])
    decreases |inv|
  {
    if |inv| == 0 then [] else Tagged(inv[..|inv| - 1]) + [(CategoryOf(inv[|inv| - 1]), inv[|inv| - 1])]
  }

  /** The grouping loop: one section per category, in order of each
      category's first entry. */
  function GroupItems(inv: seq<string>): (groups: seq<Group<string, string>>)
    ensures Total(groups) == |inv|
  {
    GroupByTotal(Tagged(inv));
    GroupBy(Tagged(inv))
  }

  /** The test that keeps the entries of one category. */
  function InCategory(c: string): string -> bool {
    item => CategoryOf(item) == c
  }

  /** The entries filed under a category are the inventory filtered by it. */
  lemma {:induction false} MembersAreFiltered(c: string, inv: seq<string>)
    ensures MembersOf(c, Tagged(inv)) == Filter(InCategory(c), inv)
    decreases |inv|
  {
    if |inv| > 0 {
      var p := inv[..|inv| - 1];
      var x := inv[|inv| - 1];
      MembersAreFiltered(c, p);
      assert Tagged(inv)[..|inv| - 1] == Tagged(p);
      assert inv == p + [x];
      FilterAppend(InCategory(c), p, [x]);
      assert Filter(InCategory(c), [x]) == if CategoryOf(x) == c then [x] else [];
    }
  }

  /** Each section holds exactly the entries of its category, in inventory order. */
  lemma GroupContents(inv: seq<string>)
    ensures forall k :: 0 <= k < |GroupItems(inv)| ==>
      GroupItems(inv)[k].members == Filter(InCategory(GroupItems(inv)[k].key), inv)
  {
    GroupByMembers(Tagged(inv));
    forall k | 0 <= k < |GroupItems(inv)|
      ensures GroupItems(inv)[k].members == Filter(InCategory(GroupItems(inv)[k].key), inv)
    {
      MembersAreFiltered(GroupItems(inv)[k].key, inv);
    }
  }

  /** There is a section for a category exactly when some entry has it, and
      no category has two sections. */
  lemma GroupCategories(inv: seq<string>, c: string)
    ensures c in Keys(GroupItems(inv)) <==> exists i :: 0 <= i < |inv| && CategoryOf(inv[i]) == c
    ensures forall i, j :: 0 <= i < j < |GroupItems(inv)| ==> GroupItems(inv)[i].key != GroupItems(inv)[j].key
  {
    var entries := Tagged(inv);
    GroupByKeys(entries);
    FirstKeysCover(entries, c);
    FirstKeysDistinct(entries);
    if exists i :: 0 <= i < |inv| && CategoryOf(inv[i]) == c {
      var i :| 0 <= i < |inv| && CategoryOf(inv[i]) == c;
      assert entries[i].0 == c;
    }
    var ks := Keys(GroupItems(inv));
    assert forall i :: 0 <= i < |ks| ==> ks[i] == GroupItems(inv)[i].key;
  }

  // ---------------------------------------------------------------------------
  // Display tables

  const DefaultCategoryName := "Разное"

  const CategoryNames: map<string, string> := map[
    "weapon" := "Оружие",
    "food" := "Еда",
    "medical" := "Медикаменты",
    "ammo" := "Боеприпасы",
    "misc" := "Разное",
    "clothing" := "Одежда",
    "tool" := "Инструменты"
  ]

  /** The heading of a section; `||` also replaces an empty table entry. A
      category of the table gets its own heading; the six named categories
      are exactly those not headed "Разное" (`misc` shares the fallback). */
  function CategoryName(category: string): (name: string)
    ensures category in CategoryNames ==> name == CategoryNames[category]
    ensures name == DefaultCategoryName <==>
      category !in {"weapon", "food", "medical", "ammo", "clothing", "tool"}
    ensures name != ""
  {
    if category in CategoryNames && CategoryNames[category] != "" then CategoryNames[category] else DefaultCategoryName
  }

  const DefaultIcon := "📦"

  const Icons: map<string, string> := map[
    "weapon" := "🔫",
    "food" := "🍖",
    "medical" := "💊",
    "ammo" := "🧨",
    "misc" := "📦",
    "clothing" := "👕",
    "tool" := "🔧"
  ]

  /** The icon of a category: a category of the table gets its own icon,
      and the box is shown exactly for categories other than the six named
      ones. */
  function IconFor(category: string): (icon: string)
    ensures category in Icons ==> icon == Icons[category]
    ensures icon == DefaultIcon <==>
      category !in {"weapon", "food", "medical", "ammo", "clothing", "tool"}
  {
    if category in Icons && Icons[category] != "" then Icons[category] else DefaultIcon
  }

  /** The icon of an entry, chosen by its category: the table's icon for a
      category of the table, the box for any other, and in particular for
      every entry without `:`. */
  function ItemIcon(item: string): (icon: string)
    ensures CategoryOf(item) in Icons ==> icon == Icons[CategoryOf(item)]
    ensures icon == DefaultIcon <==>
      CategoryOf(item) !in {"weapon", "food", "medical", "ammo", "clothing", "tool"}
    ensures ':' !in item ==> icon == DefaultIcon
  {
    IconFor(CategoryOf(item))
  }

  const DefaultDescription := "Предмет из пустоши. Может быть полезен."

  const Descriptions: map<string, string> := map[
    "weapon:pistol" := "Стандартный пистолет. Надежен и прост в использовании.",
    "weapon:rifle" := "Винтовка с оптическим прицелом. Эффективна на средних дистанциях.",
    "medical:medkit" := "Базовый медицинский набор. Восстанавливает здоровье.",
    "food:canned-meat" := "Консервированное мясо. Утоляет голод и дает силы.",
    "food:water" := "Очищенная вода. Необходима для выживания.",
    "ammo:pistol" := "Патроны для пистолета. 9мм.",
    "tool:flashlight" := "Фонарик. Помогает видеть в темных местах."
  ]

  /** The description of a whole entry (not of its name): a key of the table
      gets its text, and only those seven `category:name` entries get a text
      other than the default; an entry without `:` always gets the default. */
  function ItemDescription(item: string): (text: string)
    ensures item in Descriptions ==> text == Descriptions[item]
    ensures text != DefaultDescription <==> item in Descriptions
    ensures ':' !in item ==> text == DefaultDescription
  {
    DescriptionsAreOwn();
    DescriptionKeysHaveColon();
    if item in Descriptions && Descriptions[item] != "" then Descriptions[item] else DefaultDescription
  }

  /** Every description of the table is a text of its own. */
  lemma DescriptionsAreOwn()
    ensures forall k :: k in Descriptions ==> Descriptions[k] != "" && Descriptions[k] != DefaultDescription
  {
    forall k | k in Descriptions
      ensures Descriptions[k] != "" && Descriptions[k] != DefaultDescription
    {
      assert k in {"weapon:pistol", "weapon:rifle", "medical:medkit", "food:canned-meat",
                   "food:water", "ammo:pistol", "tool:flashlight"};
    }
  }

  /** Every key of the table is a `category:name` entry. */
  lemma DescriptionKeysHaveColon()
    ensures forall k :: k in Descriptions ==> ':' in k
  {
    forall k | k in Descriptions
      ensures ':' in k
    {
      assert k in {"weapon:pistol", "weapon:rifle", "medical:medkit", "food:canned-meat",
                   "food:water", "ammo:pistol", "tool:flashlight"};
    }
  }

  // ---------------------------------------------------------------------------
  // Name formatting

  /** `word.charAt(0).toUpperCase() + word.slice(1)`. */
  function Capitalize(word: string): (r: string)
    ensures |r| == |word|
    ensures forall k :: 0 <= k < |word| ==> r[k] == ToUpperAscii(word[k]) || r[k] == word[k]
    ensures |word| > 0 ==> r[0] == ToUpperAscii(word[0]) && r[1..] == word[1..]
  {
    if |word| == 0 then "" else [ToUpperAscii(word[0])] + word[1..]
  }

  function CapitalizeAll(words: seq<string>): (r: seq<string>)
    ensures |r| == |words|
    ensures forall i :: 0 <= i < |words| ==> r[i] == Capitalize(words[i])
    decreases |words|
  {
    if |words| == 0 then [] else [Capitalize(words[0])] + CapitalizeAll(words[1..])
  }

  /** Kebab case to words: split at `-`, capitalise each piece, join with
      spaces. No hyphen survives. */
  function FormatItemName(name: string): (r: string)
    ensures '-' !in r
  {
    var words := CapitalizeAll(Split(name, '-'));
    forall i | 0 <= i < |words|
      ensures '-' !in words[i]
    {
      var piece := Split(name, '-')[i];
      assert forall k :: 0 <= k < |piece| ==> piece[k] != '-';
    }
    Join(words, ' ')
  }

  /** Reference: the character a formatted name has at position `i`. Hyphens
      become spaces, the first letter of every piece is upper-cased, and the
      rest is kept. */
  function FormattedChar(name: string, i: nat): char
    requires i < |name|
  {
    if name[i] == '-' then ' '
    else if i == 0 || name[i - 1] == '-' then ToUpperAscii(name[i])
    else name[i]
  }

  lemma FormatItemNameStep(name: string, k: nat)
    requires IndexOf(name, '-') == Some(k)
    ensures FormatItemName(name) == Capitalize(name[..k]) + [' '] + FormatItemName(name[k + 1..])
  {
    var rest := Split(name[k + 1..], '-');
    assert Split(name, '-') == [name[..k]] + rest;
    var caps := CapitalizeAll([name[..k]] + rest);
    assert caps[1..] == CapitalizeAll(rest);
  }

  /** A formatted name has the length of the original and, position by
      position, the character `FormattedChar` gives. */
  lemma {:induction false} FormatItemNamePointwise(name: string)
    ensures |FormatItemName(name)| == |name|
    ensures forall i :: 0 <= i < |name| ==> FormatItemName(name)[i] == FormattedChar(name, i)
    decreases |name|
  {
    var r := FormatItemName(name);
    match IndexOf(name, '-')
    case None =>
      assert r == Capitalize(name);
    case Some(k) =>
      FormatItemNameStep(name, k);
      var tail := name[k + 1..];
      FormatItemNamePointwise(tail);
      forall i | 0 <= i < |name|
        ensures r[i] == FormattedChar(name, i)
      {
        if i < k {
          assert name[..k][i] == name[i];
          if i > 0 {
            assert name[..k][i - 1] == name[i - 1];
          }
        } else if k < i {
          assert FormatItemName(tail)[i - k - 1] == FormattedChar(tail, i - k - 1);
        }
      }
  }



  // ---------------------------------------------------------------------------
  // What the starting inventory looks like

  /** An inventory of ids without `:` (all loot ids are such) is shown as a
      single "misc" section holding the whole inventory, in order. */
  lemma PlainIdsAreOneMiscGroup(inv: seq<string>)
    requires |inv| > 0
    requires forall i :: 0 <= i < |inv| ==> ':' !in inv[i]
    ensures GroupItems(inv) == [Group("misc", inv)]
  {
    var gs := GroupItems(inv);
    GroupCategories(inv, "misc");
    assert CategoryOf(inv[0]) == "misc";
    forall k | 0 <= k < |gs|
      ensures gs[k].key == "misc"
    {
      GroupCategories(inv, gs[k].key);
      assert Keys(gs)[k] == gs[k].key;
    }
    GroupContents(inv);
    FilterKeepsAll(InCategory("misc"), inv);
  }

  /** The starting inventory is shown as one "misc" section, every entry
      under its own id, with the box icon and the default description. */
  lemma StartingInventoryIsOneMiscGroup()
    ensures GroupItems(PlayerStore.StartingInventory) == [Group("misc", PlayerStore.StartingInventory)]
    ensures forall i :: 0 <= i < |PlayerStore.StartingInventory| ==>
      var item := PlayerStore.StartingInventory[i];
      DisplayName(item) == item && ItemIcon(item) == DefaultIcon && ItemDescription(item) == DefaultDescription
  {
    var inv := PlayerStore.StartingInventory;
    assert forall i :: 0 <= i < |inv| ==> ':' !in inv[i];
    PlainIdsAreOneMiscGroup(inv);
  }
}
