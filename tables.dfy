/**
 * Finite tables keyed by integer primary keys: the least key of a table, its keys in
 * ascending order (the order a table scan returns rows in), and the existence of a key
 * not yet in use (the one a generated primary key takes).
 */
module Tables {

  lemma LeastExists(s: set<int>)
    requires s != {}
    ensures exists m :: m in s && forall k :: k in s ==> m <= k
  {
    assert (forall k :: k !in s) ==> s == {};
    var x :| x in s;
    var rest := s - {x};
    if rest == {} {
      assert s == {x};
    } else {
      LeastExists(rest);
      var m :| m in rest && forall k :: k in rest ==> m <= k;
      var least := if x < m then x else m;
      forall k | k in s ensures least <= k {
        if k != x { assert k in rest; }
      }
      assert least in s;
    }
  }

  function Least(s: set<int>): (m: int)
    requires s != {}
    ensures m in s
    ensures forall k :: k in s ==> m <= k
  {
    LeastExists(s);
    var m :| m in s && forall k :: k in s ==> m <= k;
    m
  }

  /** Strictly ascending, hence with no key twice. */
  predicate Ascending(s: seq<int>) {
    forall i, j :: 0 <= i < j < |s| ==> s[i] < s[j]
  }

  lemma AscendingPrepend(x: int, s: seq<int>)
    requires Ascending(s)
    requires forall k :: k in s ==> x < k
    ensures Ascending([x] + s)
  {
    var r := [x] + s;
    forall i, j | 0 <= i < j < |r| ensures r[i] < r[j] {
      assert r[j] == s[j - 1];
      if i > 0 { assert r[i] == s[i - 1]; } else { assert r[j] in s; }
    }
  }

  /** The keys of a table, each once, in strictly ascending order. */
  function SortedKeys(s: set<int>): (r: seq<int>)
    ensures |r| == |s|
    ensures forall k :: k in r <==> k in s
    ensures Ascending(r)
    decreases s
  {
    if s == {} then []
    else
      var m := Least(s);
      var rest := SortedKeys(s - {m});
      assert forall k :: k in rest ==> m < k;
      AscendingPrepend(m, rest);
      [m] + rest
  }

  /** The records stored under `keys`, in the order of `keys`. */
  function ValuesAt<V>(m: map<int, V>, keys: seq<int>): (r: seq<V>)
    requires forall i :: 0 <= i < |keys| ==> keys[i] in m
  {
    seq(|keys|, i requires 0 <= i < |keys| => m[keys[i]])
  }

  /** However many rows a table holds, some integer is not yet one of its keys. */
  lemma UnusedKeyExists(s: set<int>)
    ensures exists k :: k !in s
  {
    if s != {} {
      var m := Least(s);
      assert m - 1 !in s;
    } else {
      assert 0 !in s;
    }
  }
}
