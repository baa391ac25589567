/** The two lookup structures the backends build: a map filled in scan order
    where a later key overwrites an earlier one (std::map assignment), and
    ordered walks over a finite set of integer keys (std::map iteration). */
module Tables {

  /** The position of the last pair whose key is `key`, or -1 if none. */
  function LastIndex<K(==,!new), V>(pairs: seq<(K, V)>, key: K): (i: int)
    ensures -1 <= i < |pairs|
    ensures 0 <= i ==> pairs[i].0 == key
    ensures forall j :: i < j < |pairs| ==> pairs[j].0 != key
  {
    if |pairs| == 0 then -1
    else if pairs[|pairs| - 1].0 == key then |pairs| - 1
    else LastIndex(pairs[..|pairs| - 1], key)
  }

  /** The map `m[k] = v` builds when the pairs are assigned in order: every
      key present, each bound to the value of its last pair. */
  function LastWins<K(==,!new), V>(pairs: seq<(K, V)>): (m: map<K, V>)
    ensures forall key :: key in m <==> 0 <= LastIndex(pairs, key)
    ensures forall key :: key in m ==> m[key] == pairs[LastIndex(pairs, key)].1
  {
    if |pairs| == 0 then map[]
    else
      var last := pairs[|pairs| - 1];
      LastWins(pairs[..|pairs| - 1])[last.0 := last.1]
  }

  /** A non-empty set has a member. */
  lemma NonEmptyHasMember(s: set<int>)
    requires s != {}
    ensures exists y :: y in s
  {
    if forall y :: y !in s {
      assert false;
    }
  }

  /** A set other than `{y}` that holds `y` holds something else too. */
  lemma OtherMember(s: set<int>, y: int)
    requires y in s && s != {y}
    ensures exists z :: z in s && z != y
  {
    if forall z :: z in s ==> z == y {
      assert false;
    }
  }

  lemma {:induction false} MinExists(s: set<int>)
    requires s != {}
    ensures exists m :: m in s && forall x :: x in s ==> m <= x
  {
    NonEmptyHasMember(s);
    var y :| y in s;
    if s != {y} {
      var rest := s - {y};
      OtherMember(s, y);
      var z :| z in s && z != y;
      assert z in rest;
      MinExists(rest);
      var m :| m in rest && forall x :: x in rest ==> m <= x;
      var least := if y <= m then y else m;
      forall x | x in s
        ensures least <= x
      {
        if x != y {
          assert x in rest;
        }
      }
      assert least in s;
    } else {
      assert forall x :: x in s ==> y <= x;
    }
  }

  lemma {:induction false} MaxExists(s: set<int>)
    requires s != {}
    ensures exists m :: m in s && forall x :: x in s ==> x <= m
  {
    NonEmptyHasMember(s);
    var y :| y in s;
    if s != {y} {
      var rest := s - {y};
      OtherMember(s, y);
      var z :| z in s && z != y;
      assert z in rest;
      MaxExists(rest);
      var m :| m in rest && forall x :: x in rest ==> x <= m;
      var greatest := if m <= y then y else m;
      forall x | x in s
        ensures x <= greatest
      {
        if x != y {
          assert x in rest;
        }
      }
      assert greatest in s;
    } else {
      assert forall x :: x in s ==> x <= y;
    }
  }

  /** The smallest element (`begin()` of an ordered map's keys). */
  function Min(s: set<int>): (m: int)
    requires s != {}
    ensures m in s
    ensures forall x :: x in s ==> m <= x
  {
    MinExists(s);
    var m :| m in s && (forall x :: x in s ==> m <= x);
    m
  }

  /** The largest element (`rbegin()` of an ordered map's keys). */
  function Max(s: set<int>): (m: int)
    requires s != {}
    ensures m in s
    ensures forall x :: x in s ==> x <= m
  {
    MaxExists(s);
    var m :| m in s && (forall x :: x in s ==> x <= m);
    m
  }

  /** The elements strictly above `k`. */
  function Above(s: set<int>, k: int): (a: set<int>)
    ensures forall x :: x in a <==> x in s && k < x
  {
    set x | x in s && k < x
  }

  /** The key an ordered-map iterator reaches by `++` from `k`, or the
      sentinel -1 once it passes the largest key. */
  function NextAbove(s: set<int>, k: int): (r: int)
    ensures Above(s, k) == {} ==> r == -1
    ensures Above(s, k) != {} ==> r in s && k < r
    ensures Above(s, k) != {} ==> forall x :: x in s && k < x ==> r <= x
  {
    if Above(s, k) == {} then -1 else Min(Above(s, k))
  }

  /** A set of integers inside `lo..hi` has at most `hi - lo + 1` members. */
  lemma {:induction false} BoundedSize(s: set<int>, lo: int, hi: int)
    requires forall x :: x in s ==> lo <= x <= hi
    ensures |s| <= if lo <= hi then hi - lo + 1 else 0
    decreases hi - lo
  {
    if lo <= hi {
      BoundedSize(s - {hi}, lo, hi - 1);
    } else {
      assert forall x :: x !in s;
      assert s == {};
    }
  }

  /** The elements of `s` in ascending order: the order of an ordered map's
      iteration. */
  function Ascending(s: set<int>): (xs: seq<int>)
    ensures |xs| == |s|
    ensures forall i :: 0 <= i < |xs| ==> xs[i] in s
    ensures forall x :: x in s ==> x in xs
    ensures forall i, j :: 0 <= i < j < |xs| ==> xs[i] < xs[j]
    decreases |s|
  {
    if s == {} then []
    else
      var m := Min(s);
      [m] + Ascending(s - {m})
  }
}
