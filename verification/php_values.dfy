/**
 * The slice of PHP's value model that the error layer relies on: scalars,
 * ordered arrays, truthiness (as read by the short ternary `?:`) and the
 * array union operator `+`.
 */
module PhpValues {
  import opened Wrappers

  /** A PHP array key. */
  datatype Key = IntKey(n: int) | StrKey(s: string)

  /** The PHP values this layer handles; floats and objects are not modelled. */
  datatype Value =
    | Null
    | Bool(b: bool)
    | Int(n: int)
    | Str(s: string)
    | Arr(entries: PhpArray)

  datatype Entry = Entry(key: Key, val: Value)

  /** A PHP array: key/value entries in insertion order. */
  type PhpArray = seq<Entry>

  /** PHP's conversion to bool: `null`, `false`, `0`, `""`, `"0"` and `[]` are falsy. */
  predicate Truthy(v: Value) {
    match v
    case Null => false
    case Bool(b) => b
    case Int(n) => n != 0
    case Str(s) => s != "" && s != "0"
    case Arr(a) => |a| > 0
  }

  /** The short ternary `v ?: alt`. */
  function Elvis(v: Value, alt: Value): Value {
    if Truthy(v) then v else alt
  }

  function Keys(a: PhpArray): set<Key> {
    set i | 0 <= i < |a| :: a[i].key
  }

  /** Every key occurs once, as in every array PHP builds. */
  predicate DistinctKeys(a: PhpArray) {
    forall i, j :: 0 <= i < j < |a| ==> a[i].key != a[j].key
  }

  /** `$a[$k] ?? null`, reading the first entry under `k`. */
  function Lookup(a: PhpArray, k: Key): (r: Option<Value>)
    ensures r.Some? <==> k in Keys(a)
    ensures r.Some? ==> Entry(k, r.value) in a
  {
    KeysCons(a);
    if |a| == 0 then None
    else if a[0].key == k then Some(a[0].val)
    else Lookup(a[1..], k)
  }

  lemma KeysCons(a: PhpArray)
    ensures |a| > 0 ==> Keys(a) == {a[0].key} + Keys(a[1..])
  {
    if |a| > 0 {
      forall k | k in Keys(a) ensures k in {a[0].key} + Keys(a[1..]) {
        var i :| 0 <= i < |a| && a[i].key == k;
        if i > 0 { assert a[1..][i - 1].key == k; }
      }
      forall k | k in Keys(a[1..]) ensures k in Keys(a) {
        var i :| 0 <= i < |a[1..]| && a[1..][i].key == k;
        assert a[i + 1].key == k;
      }
    }
  }

  lemma KeysAppend(a: PhpArray, b: PhpArray)
    ensures Keys(a + b) == Keys(a) + Keys(b)
  {
    forall k | k in Keys(a + b) ensures k in Keys(a) + Keys(b) {
      var i :| 0 <= i < |a + b| && (a + b)[i].key == k;
      if i >= |a| { assert b[i - |a|].key == k; }
    }
    forall k | k in Keys(a) ensures k in Keys(a + b) {
      var i :| 0 <= i < |a| && a[i].key == k;
      assert (a + b)[i].key == k;
    }
    forall k | k in Keys(b) ensures k in Keys(a + b) {
      var i :| 0 <= i < |b| && b[i].key == k;
      assert (a + b)[|a| + i].key == k;
    }
  }

  /** Reading a concatenation finds the left part's entry first. */
  lemma {:induction false} LookupAppend(a: PhpArray, b: PhpArray, k: Key)
    ensures Lookup(a + b, k) == if k in Keys(a) then Lookup(a, k) else Lookup(b, k)
    decreases |a|
  {
    if |a| == 0 {
      assert a + b == b;
    } else {
      assert (a + b)[1..] == a[1..] + b;
      KeysCons(a);
      if a[0].key != k {
        LookupAppend(a[1..], b, k);
      }
    }
  }

  /** The entries of `right` whose key `left` lacks, in their order in `right`. */
  function Missing(left: PhpArray, right: PhpArray): (r: PhpArray)
    ensures Keys(r) == Keys(right) - Keys(left)
    ensures forall k :: k !in Keys(left) ==> Lookup(r, k) == Lookup(right, k)
    ensures DistinctKeys(right) ==> DistinctKeys(r)
    decreases |right|
  {
    KeysCons(right);
    if |right| == 0 then []
    else
      var rest := Missing(left, right[1..]);
      if right[0].key in Keys(left) then rest
      else
        KeysCons([right[0]] + rest);
        assert ([right[0]] + rest)[1..] == rest;
        DistinctTail(right);
        DistinctCons(right[0], rest);
        [right[0]] + rest
  }

  lemma DistinctTail(a: PhpArray)
    ensures |a| > 0 && DistinctKeys(a) ==> a[0].key !in Keys(a[1..]) && DistinctKeys(a[1..])
  {
    if |a| > 0 && DistinctKeys(a) {
      forall i, j | 0 <= i < j < |a[1..]| ensures a[1..][i].key != a[1..][j].key {
        assert a[1..][i] == a[i + 1] && a[1..][j] == a[j + 1];
      }
    }
  }

  lemma DistinctCons(e: Entry, a: PhpArray)
    ensures DistinctKeys(a) && e.key !in Keys(a) ==> DistinctKeys([e] + a)
  {
    if DistinctKeys(a) && e.key !in Keys(a) {
      var s := [e] + a;
      forall i, j | 0 <= i < j < |s| ensures s[i].key != s[j].key {
        if i == 0 {
          assert s[j] == a[j - 1];
        } else {
          assert s[i] == a[i - 1] && s[j] == a[j - 1];
        }
      }
    }
  }

  /**
   * The array union `left + right`: every entry of `left`, then the entries
   * of `right` under keys `left` does not have; on a shared key the left
   * operand wins.
   */
  function Union(left: PhpArray, right: PhpArray): (r: PhpArray)
    ensures Keys(r) == Keys(left) + Keys(right)
    ensures forall k :: k in Keys(left) ==> Lookup(r, k) == Lookup(left, k)
    ensures forall k :: k !in Keys(left) ==> Lookup(r, k) == Lookup(right, k)
    ensures |r| >= |left| && r[..|left|] == left
    ensures DistinctKeys(left) && DistinctKeys(right) ==> DistinctKeys(r)
  {
    var m := Missing(left, right);
    KeysAppend(left, m);
    forall k ensures Lookup(left + m, k) == if k in Keys(left) then Lookup(left, k) else Lookup(m, k) {
      LookupAppend(left, m, k);
    }
    assert (left + m)[..|left|] == left;
    DistinctAppend(left, m);
    left + m
  }

  lemma DistinctAppend(a: PhpArray, b: PhpArray)
    ensures DistinctKeys(a) && DistinctKeys(b) && Keys(a) !! Keys(b) ==> DistinctKeys(a + b)
  {
    if DistinctKeys(a) && DistinctKeys(b) && Keys(a) !! Keys(b) {
      var s := a + b;
      forall i, j | 0 <= i < j < |s| ensures s[i].key != s[j].key {
        if j < |a| {
          assert s[i] == a[i] && s[j] == a[j];
        } else if i >= |a| {
          assert s[i] == b[i - |a|] && s[j] == b[j - |a|];
        } else {
          assert s[i] == a[i] && s[j] == b[j - |a|];
          assert s[i].key in Keys(a) && s[j].key in Keys(b);
        }
      }
    }
  }
}
