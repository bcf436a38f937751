/** The order in which the source's sorted maps yield their keys. */
module SortedKeySets {
  import opened Prelude

  ghost function Least(keys: set<u32>): (least: u32)
    requires keys != {}
    ensures least in keys && forall k :: k in keys ==> least <= k
  {
    var k :| k in keys;
    assert keys == (keys - {k}) + {k};
    if keys - {k} == {} then k
    else
      var least := Least(keys - {k});
      if k < least then k else least
  }

  ghost function SortedKeys(keys: set<u32>): (sorted: seq<u32>)
    ensures |sorted| == |keys|
    ensures forall k :: k in sorted <==> k in keys
  {
    if keys == {} then []
    else
      var least := Least(keys);
      assert keys == (keys - {least}) + {least};
      [least] + SortedKeys(keys - {least})
  }

  lemma {:induction false} SortedKeysAscend(keys: set<u32>)
    ensures forall i, j :: 0 <= i < j < |SortedKeys(keys)| ==> SortedKeys(keys)[i] < SortedKeys(keys)[j]
  {
    if keys != {} {
      SortedKeysAscend(keys - {Least(keys)});
      LeastIsBeforeRest(keys);
      AscendingBehind(Least(keys), SortedKeys(keys - {Least(keys)}));
    }
  }

  lemma LeastIsBeforeRest(keys: set<u32>)
    requires keys != {}
    ensures var least := Least(keys);
            forall j :: 0 <= j < |SortedKeys(keys - {least})| ==> least < SortedKeys(keys - {least})[j]
  {
    var least := Least(keys);
    var rest := SortedKeys(keys - {least});
    hide SortedKeys, Least;
    forall j | 0 <= j < |rest| ensures least < rest[j] {
      assert rest[j] in rest;
    }
  }

  lemma AscendingBehind(head: u32, rest: seq<u32>)
    requires forall j :: 0 <= j < |rest| ==> head < rest[j]
    requires forall i, j :: 0 <= i < j < |rest| ==> rest[i] < rest[j]
    ensures var all := [head] + rest; forall i, j :: 0 <= i < j < |all| ==> all[i] < all[j]
  {
  }

  predicate IsLeast(key: u32, keys: set<u32>) {
    forall k :: k in keys ==> key <= k
  }

  lemma LeastExists(keys: set<u32>)
    requires keys != {}
    ensures exists key :: key in keys && IsLeast(key, keys)
  {
    var least := Least(keys);
    assert IsLeast(least, keys);
  }
}
