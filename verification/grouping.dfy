/** Grouping a keyed list into sections, one per key: each entry is pushed
    onto its key's section, and a key seen for the first time opens a new
    section at the end. */
module Grouping {

  datatype Group<K, V> = Group(key: K, members: seq<V>)

  function Keys<K, V>(groups: seq<Group<K, V>>): (ks: seq<K>)
    ensures |ks| == |groups|
    ensures forall i {:trigger ks[i]} :: 0 <= i < |groups| ==> ks[i] == groups[i].key
    decreases |groups|
  {
    if |groups| == 0 then [] else [groups[0].key] + Keys(groups[1..])
  }

  /** Pushes `v` onto the first section with key `key`, or opens one. */
  function Add<K(==), V>(groups: seq<Group<K, V>>, key: K, v: V): (r: seq<Group<K, V>>)
    ensures |r| == if key in Keys(groups) then |groups| else |groups| + 1
    ensures forall i {:trigger r[i]} :: 0 <= i < |groups| ==> r[i].key == groups[i].key
    ensures key !in Keys(groups) ==> r[|groups|] == Group(key, [v])
    decreases |groups|
  {
    if |groups| == 0 then [Group(key, [v])]
    else if groups[0].key == key then [groups[0].(members := groups[0].members + [v])] + groups[1..]
    else
      assert Keys(groups) == [groups[0].key] + Keys(groups[1..]);
      [groups[0]] + Add(groups[1..], key, v)
  }

  /** The keys after `Add`: unchanged, or the new key appended. */
  lemma AddKeys<K, V>(groups: seq<Group<K, V>>, key: K, v: V)
    ensures Keys(Add(groups, key, v)) == if key in Keys(groups) then Keys(groups) else Keys(groups) + [key]
  {
    var r := Add(groups, key, v);
    var want := if key in Keys(groups) then Keys(groups) else Keys(groups) + [key];
    assert |Keys(r)| == |want|;
    forall i | 0 <= i < |want|
      ensures Keys(r)[i] == want[i]
    {
      if i < |groups| {
        assert r[i].key == groups[i].key;
      }
    }
  }

  /** `Add` leaves every section before the key's first one alone and pushes
      the value onto that one. */
  lemma {:induction false} AddAt<K, V>(groups: seq<Group<K, V>>, key: K, v: V, k: nat)
    requires k < |groups|
    ensures Add(groups, key, v)[k].members ==
      if groups[k].key == key && forall i :: 0 <= i < k ==> groups[i].key != key
      then groups[k].members + [v] else groups[k].members
    decreases |groups|
  {
    var r := Add(groups, key, v);
    if groups[0].key == key {
      assert r == [groups[0].(members := groups[0].members + [v])] + groups[1..];
      if k > 0 {
        assert r[k] == groups[k];
        assert !(forall i :: 0 <= i < k ==> groups[i].key != key) by {
          assert groups[0].key == key;
        }
      }
    } else {
      var rest := Add(groups[1..], key, v);
      assert r == [groups[0]] + rest;
      if k > 0 {
        AddAt(groups[1..], key, v, k - 1);
        assert r[k] == rest[k - 1];
        assert (forall i :: 0 <= i < k ==> groups[i].key != key) <==>
          (forall i :: 0 <= i < k - 1 ==> groups[1..][i].key != key);
      }
    }
  }

  /** The grouping loop, in list order. */
  function GroupBy<K(==), V>(entries: seq<(K, V)>): (groups: seq<Group<K, V>>)
    ensures |groups| <= |entries|
    ensures |entries| > 0 ==> |groups| > 0
    decreases |entries|
  {
    if |entries| == 0 then []
    else
      var last := entries[|entries| - 1];
      Add(GroupBy(entries[..|entries| - 1]), last.0, last.1)
  }

  /** Reference: the keys in order of first appearance. */
  function FirstKeys<K(==), V>(entries: seq<(K, V)>): seq<K>
    decreases |entries|
  {
    if |entries| == 0 then []
    else
      var d := FirstKeys(entries[..|entries| - 1]);
      var key := entries[|entries| - 1].0;
      if key in d then d else d + [key]
  }

  /** Reference: the values filed under `key`, in list order. */
  function MembersOf<K(==), V>(key: K, entries: seq<(K, V)>): seq<V>
    decreases |entries|
  {
    if |entries| == 0 then []
    else
      var last := entries[|entries| - 1];
      MembersOf(key, entries[..|entries| - 1]) + (if last.0 == key then [last.1] else [])
  }

  /** The sections come in order of their key's first appearance. */
  lemma {:induction false} GroupByKeys<K, V>(entries: seq<(K, V)>)
    ensures Keys(GroupBy(entries)) == FirstKeys(entries)
    decreases |entries|
  {
    if |entries| > 0 {
      var last := entries[|entries| - 1];
      GroupByKeys(entries[..|entries| - 1]);
      AddKeys(GroupBy(entries[..|entries| - 1]), last.0, last.1);
    }
  }

  /** A key is listed exactly when some entry carries it. */
  lemma {:induction false} FirstKeysCover<K, V>(entries: seq<(K, V)>, key: K)
    ensures key in FirstKeys(entries) <==> exists i :: 0 <= i < |entries| && entries[i].0 == key
    decreases |entries|
  {
    if |entries| > 0 {
      var p := entries[..|entries| - 1];
      FirstKeysCover(p, key);
      if exists i :: 0 <= i < |p| && p[i].0 == key {
        var i :| 0 <= i < |p| && p[i].0 == key;
        assert entries[i] == p[i];
      }
      if exists i :: 0 <= i < |entries| && entries[i].0 == key {
        var i :| 0 <= i < |entries| && entries[i].0 == key;
        if i < |p| {
          assert p[i] == entries[i];
        }
      }
    }
  }

  /** No key is listed twice. */
  lemma {:induction false} FirstKeysDistinct<K, V>(entries: seq<(K, V)>)
    ensures forall i, j :: 0 <= i < j < |FirstKeys(entries)| ==> FirstKeys(entries)[i] != FirstKeys(entries)[j]
    decreases |entries|
  {
    if |entries| > 0 {
      FirstKeysDistinct(entries[..|entries| - 1]);
    }
  }

  /** A key no entry carries has no members. */
  lemma {:induction false} MembersOfAbsent<K, V>(key: K, entries: seq<(K, V)>)
    requires forall i :: 0 <= i < |entries| ==> entries[i].0 != key
    ensures MembersOf(key, entries) == []
    decreases |entries|
  {
    if |entries| > 0 {
      MembersOfAbsent(key, entries[..|entries| - 1]);
    }
  }

  /** A section that existed before the last entry was filed keeps holding
      exactly its key's values. */
  lemma GroupByOldSection<K, V>(entries: seq<(K, V)>, k: nat)
    requires |entries| > 0
    requires var p := entries[..|entries| - 1];
      k < |GroupBy(p)| && GroupBy(p)[k].members == MembersOf(GroupBy(p)[k].key, p)
    ensures k < |GroupBy(entries)|
    ensures GroupBy(entries)[k].members == MembersOf(GroupBy(entries)[k].key, entries)
  {
    var p := entries[..|entries| - 1];
    var last := entries[|entries| - 1];
    var gs := GroupBy(p);
    AddAt(gs, last.0, last.1, k);
    if gs[k].key == last.0 {
      GroupByKeys(p);
      FirstKeysDistinct(p);
      assert Keys(gs)[k] == last.0;
      assert forall i :: 0 <= i < k ==> gs[i].key != last.0 by {
        assert forall i :: 0 <= i < k ==> Keys(gs)[i] == gs[i].key;
      }
    }
  }

  /** The section the last entry opens holds just that entry's value. */
  lemma GroupByNewSection<K, V>(entries: seq<(K, V)>, k: nat)
    requires |entries| > 0
    requires |GroupBy(entries[..|entries| - 1])| <= k < |GroupBy(entries)|
    ensures GroupBy(entries)[k].members == MembersOf(GroupBy(entries)[k].key, entries)
  {
    var p := entries[..|entries| - 1];
    var last := entries[|entries| - 1];
    var gs := GroupBy(p);
    assert last.0 !in Keys(gs) && k == |gs|;
    GroupByKeys(p);
    FirstKeysCover(p, last.0);
    MembersOfAbsent(last.0, p);
  }

  /** Each section holds exactly the values filed under its key, in list order. */
  lemma {:induction false} GroupByMembers<K, V>(entries: seq<(K, V)>)
    ensures forall k :: 0 <= k < |GroupBy(entries)| ==>
      GroupBy(entries)[k].members == MembersOf(GroupBy(entries)[k].key, entries)
    decreases |entries|
  {
    if |entries| > 0 {
      GroupByMembers(entries[..|entries| - 1]);
      forall k | 0 <= k < |GroupBy(entries)|
        ensures GroupBy(entries)[k].members == MembersOf(GroupBy(entries)[k].key, entries)
      {
        var p := entries[..|entries| - 1];
        if k < |GroupBy(p)| {
          GroupByOldSection(entries, k);
        } else {
          GroupByNewSection(entries, k);
        }
      }
    }
  }

  /** The total number of values over all sections. */
  function Total<K, V>(groups: seq<Group<K, V>>): nat
    decreases |groups|
  {
    if |groups| == 0 then 0 else |groups[0].members| + Total(groups[1..])
  }

  lemma {:induction false} AddTotal<K, V>(groups: seq<Group<K, V>>, key: K, v: V)
    ensures Total(Add(groups, key, v)) == Total(groups) + 1
    decreases |groups|
  {
    if |groups| > 0 {
      var r := Add(groups, key, v);
      if groups[0].key == key {
        assert r[1..] == groups[1..];
      } else {
        AddTotal(groups[1..], key, v);
        assert r[1..] == Add(groups[1..], key, v);
      }
    }
  }

  /** Every entry lands in exactly one section: the sections hold as many
      values as there are entries. */
  lemma {:induction false} GroupByTotal<K, V>(entries: seq<(K, V)>)
    ensures Total(GroupBy(entries)) == |entries|
    decreases |entries|
  {
    if |entries| > 0 {
      var last := entries[|entries| - 1];
      GroupByTotal(entries[..|entries| - 1]);
      AddTotal(GroupBy(entries[..|entries| - 1]), last.0, last.1);
    }
  }
}
