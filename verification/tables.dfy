/** Scans over the rows of a table. A table is a map from row id to record;
    a plain SQLite table scan visits rows in ascending id order. */
module Tables {

  /** Every non-empty finite set of ids has a least element. */
  lemma {:induction false} MinExists(keys: set<int>)
    requires keys != {}
    ensures exists k :: k in keys && forall j :: j in keys ==> k <= j
    decreases keys
  {
    if forall k :: k !in keys { assert false; }
    var x :| x in keys;
    if keys - {x} == {} {
      assert keys == {x};
    } else {
      MinExists(keys - {x});
      var m :| m in keys - {x} && forall j :: j in keys - {x} ==> m <= j;
      forall j | j in keys ensures j == x || j in keys - {x} { }
      if x <= m {
        assert forall j :: j in keys ==> x <= j;
      } else {
        assert forall j :: j in keys ==> m <= j;
      }
    }
  }

  /** The least id of a non-empty table. */
  function MinKey(keys: set<int>): (k: int)
    requires keys != {}
    ensures k in keys && forall j :: j in keys ==> k <= j
  {
    MinExists(keys);
    var k :| k in keys && forall j :: j in keys ==> k <= j;
    k
  }

  /** Every non-empty finite set of integers has a greatest element. */
  lemma {:induction false} MaxExists(s: set<int>)
    requires s != {}
    ensures exists m :: m in s && forall j :: j in s ==> j <= m
    decreases s
  {
    if forall k :: k !in s { assert false; }
    var x :| x in s;
    if s - {x} == {} {
      assert s == {x};
    } else {
      MaxExists(s - {x});
      var m :| m in s - {x} && forall j :: j in s - {x} ==> j <= m;
      forall j | j in s ensures j == x || j in s - {x} { }
      if m <= x {
        assert forall j :: j in s ==> j <= x;
      } else {
        assert forall j :: j in s ==> j <= m;
      }
    }
  }

  /** The greatest element of a non-empty set: SQL max() over its values. */
  function MaxOf(s: set<int>): (m: int)
    requires s != {}
    ensures m in s && forall j :: j in s ==> j <= m
  {
    MaxExists(s);
    var m :| m in s && forall j :: j in s ==> j <= m;
    m
  }

  /** The ids of a table in scan order: each id once, strictly ascending. */
  function KeysAscending(keys: set<int>): (r: seq<int>)
    ensures |r| == |keys|
    ensures forall i :: 0 <= i < |r| ==> r[i] in keys
    ensures forall k :: k in keys ==> k in r
    ensures forall i, j :: 0 <= i < j < |r| ==> r[i] < r[j]
    decreases keys
  {
    if keys == {} then []
    else
      var k := MinKey(keys);
      var rest := KeysAscending(keys - {k});
      PrependLeast(keys, k, rest);
      [k] + rest
  }

  /** Putting the least id in front of the scan of the other ids gives the
      scan of all of them. */
  lemma PrependLeast(keys: set<int>, k: int, rest: seq<int>)
    requires k in keys && forall j :: j in keys ==> k <= j
    requires |rest| == |keys - {k}|
    requires forall i :: 0 <= i < |rest| ==> rest[i] in keys - {k}
    requires forall x :: x in keys - {k} ==> x in rest
    requires forall i, j :: 0 <= i < j < |rest| ==> rest[i] < rest[j]
    ensures |[k] + rest| == |keys|
    ensures forall i :: 0 <= i < |[k] + rest| ==> ([k] + rest)[i] in keys
    ensures forall x :: x in keys ==> x in [k] + rest
    ensures forall i, j :: 0 <= i < j < |[k] + rest| ==> ([k] + rest)[i] < ([k] + rest)[j]
  {
    var r := [k] + rest;
    assert forall i :: 0 < i < |r| ==> r[i] == rest[i - 1];
    assert forall i :: 0 <= i < |rest| ==> k < rest[i];
    forall x | x in keys ensures x in r {
      if x != k { assert x in keys - {k}; }
    }
  }
}
