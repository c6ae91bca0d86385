/**
 * A Python dict as the statistics collectors use it: entries keyed by
 * language, iterated in insertion order. `Fill` is the loop that computes one
 * value per key, in key order, and stores it, stopping at the first key whose
 * value could not be computed.
 */
module OrderedDict {
  import opened Wrappers

  /** The keys in insertion order, and the entries. */
  datatype Dict<K, V> = Dict(order: seq<K>, entries: map<K, V>)

  predicate Distinct<K(==)>(s: seq<K>) {
    forall i, j :: 0 <= i < j < |s| ==> s[i] != s[j]
  }

  /** Each key appears once in the insertion order, and the order lists exactly the keys. */
  predicate WellFormed<K(==), V>(d: Dict<K, V>) {
    && Distinct(d.order)
    && (forall k :: k in d.entries ==> k in d.order)
    && (forall k :: k in d.order ==> k in d.entries)
  }

  /** `{}` */
  function Empty<K(==), V>(): (d: Dict<K, V>)
    ensures WellFormed(d) && d.order == []
  {
    Dict([], map[])
  }

  /**
   * `d[k] = v`: the value is stored under `k`, every other entry is kept, a
   * new key goes to the end of the order and an existing key keeps its place.
   */
  function Insert<K(==), V>(d: Dict<K, V>, k: K, v: V): (d': Dict<K, V>)
    requires WellFormed(d)
    ensures WellFormed(d')
    ensures k in d'.entries && d'.entries[k] == v
    ensures forall other :: other in d.entries && other != k ==> other in d'.entries && d'.entries[other] == d.entries[other]
    ensures k !in d.order ==> d'.order == d.order + [k]
    ensures k in d.order ==> d'.order == d.order
  {
    Dict(if k in d.order then d.order else d.order + [k], d.entries[k := v])
  }

  /**
   * The loop `for k in keys: d[k] = <value for k>` from the dict `acc` on,
   * where `values[i]` is the value computed for `keys[i]` or the error that
   * aborts the loop.
   */
  function Fill<K(==), V, E>(keys: seq<K>, values: seq<Result<V, E>>, acc: Dict<K, V>): Result<Dict<K, V>, E>
    requires |values| == |keys|
    requires WellFormed(acc)
    decreases |keys|
  {
    if keys == [] then Success(acc)
    else
      match values[0]
      case Failure(e) => Failure(e)
      case Success(v) => Fill(keys[1..], values[1..], Insert(acc, keys[0], v))
  }

  /**
   * One pass of the loop at key `i`: a failed value ends it with that error,
   * a computed one is stored and the loop goes on with the next key.
   */
  lemma FillStep<K, V, E>(keys: seq<K>, values: seq<Result<V, E>>, acc: Dict<K, V>, i: nat)
    requires |values| == |keys|
    requires WellFormed(acc)
    requires i < |keys|
    ensures values[i].Failure? ==> Fill(keys[i..], values[i..], acc) == Failure(values[i].error)
    ensures values[i].Success? ==>
              Fill(keys[i..], values[i..], acc) == Fill(keys[i + 1..], values[i + 1..], Insert(acc, keys[i], values[i].value))
  {
    assert keys[i..][1..] == keys[i + 1..];
    assert values[i..][1..] == values[i + 1..];
  }

  /** A completed loop leaves a well-formed dict: each key once in the order, and the order lists exactly the keys. */
  lemma {:induction false} FillWellFormed<K, V, E>(keys: seq<K>, values: seq<Result<V, E>>, acc: Dict<K, V>)
    requires |values| == |keys|
    requires WellFormed(acc)
    ensures var r := Fill(keys, values, acc);
      r.Success? ==> WellFormed(r.value)
    decreases |keys|
  {
    if keys != [] && values[0].Success? {
      FillWellFormed(keys[1..], values[1..], Insert(acc, keys[0], values[0].value));
    }
  }

  /** The loop completes iff every value is computed. */
  lemma {:induction false} FillSucceedsIff<K, V, E>(keys: seq<K>, values: seq<Result<V, E>>, acc: Dict<K, V>)
    requires |values| == |keys|
    requires WellFormed(acc)
    ensures Fill(keys, values, acc).Success? <==> forall i :: 0 <= i < |values| ==> values[i].Success?
    decreases |keys|
  {
    if keys != [] && values[0].Success? {
      FillSucceedsIff(keys[1..], values[1..], Insert(acc, keys[0], values[0].value));
      assert forall i :: 1 <= i < |values| ==> values[i] == values[1..][i - 1];
    }
  }

  /** An aborted loop carries the error of the first key whose value failed. */
  lemma {:induction false} FillFailsAtFirstFailure<K, V, E>(keys: seq<K>, values: seq<Result<V, E>>, acc: Dict<K, V>)
    requires |values| == |keys|
    requires WellFormed(acc)
    ensures var r := Fill(keys, values, acc);
      r.Failure? ==> exists i :: 0 <= i < |values| && values[i] == Failure(r.error) &&
                                forall j :: 0 <= j < i ==> values[j].Success?
    decreases |keys|
  {
    var r := Fill(keys, values, acc);
    if keys != [] && values[0].Success? && r.Failure? {
      FillFailsAtFirstFailure(keys[1..], values[1..], Insert(acc, keys[0], values[0].value));
      var i :| 0 <= i < |values[1..]| && values[1..][i] == Failure(r.error) &&
               forall j :: 0 <= j < i ==> values[1..][j].Success?;
      assert values[i + 1] == Failure(r.error);
      forall j | 0 <= j < i + 1 ensures values[j].Success? {
        if j > 0 { assert values[j] == values[1..][j - 1]; }
      }
    }
  }

  lemma SeqAssoc<K>(a: seq<K>, b: seq<K>, c: seq<K>)
    ensures (a + b) + c == a + (b + c)
  {
  }

  /**
   * Over distinct keys not yet in the dict, a completed loop appends every
   * key to the insertion order, in key order.
   */
  lemma {:induction false} FillOrder<K, V, E>(keys: seq<K>, values: seq<Result<V, E>>, acc: Dict<K, V>)
    requires |values| == |keys|
    requires WellFormed(acc)
    requires Distinct(keys)
    requires forall i :: 0 <= i < |keys| ==> keys[i] !in acc.order
    ensures var r := Fill(keys, values, acc);
      r.Success? ==> r.value.order == acc.order + keys
    decreases |keys|
  {
    var r := Fill(keys, values, acc);
    if keys == [] {
      assert acc.order + keys == acc.order;
    } else if values[0].Success? && r.Success? {
      var k := keys[0];
      var acc' := Insert(acc, k, values[0].value);
      var rest := keys[1..];
      forall i | 0 <= i < |rest| ensures rest[i] !in acc'.order {
        assert rest[i] == keys[i + 1] != k;
      }
      FillOrder(rest, values[1..], acc');
      assert keys == [k] + rest;
      SeqAssoc(acc.order, [k], rest);
    }
  }

  /**
   * Over distinct keys, a completed loop stores under each key the value
   * computed for it, and keeps the entries that were already there.
   */
  lemma {:induction false} FillEntries<K, V, E>(keys: seq<K>, values: seq<Result<V, E>>, acc: Dict<K, V>)
    requires |values| == |keys|
    requires WellFormed(acc)
    requires Distinct(keys)
    ensures var r := Fill(keys, values, acc);
      r.Success? ==>
        && (forall i :: 0 <= i < |values| ==> values[i].Success?)
        && (forall i :: 0 <= i < |keys| ==> keys[i] in r.value.entries && r.value.entries[keys[i]] == values[i].value)
        && (forall k :: k in acc.entries && k !in keys ==> k in r.value.entries && r.value.entries[k] == acc.entries[k])
    decreases |keys|
  {
    var r := Fill(keys, values, acc);
    FillSucceedsIff(keys, values, acc);
    if keys != [] && values[0].Success? && r.Success? {
      var k := keys[0];
      var acc' := Insert(acc, k, values[0].value);
      var rest := keys[1..];
      assert Distinct(rest);
      FillEntries(rest, values[1..], acc');
      forall i | 0 <= i < |keys|
        ensures keys[i] in r.value.entries && r.value.entries[keys[i]] == values[i].value
      {
        if i > 0 {
          assert keys[i] == rest[i - 1] && values[i] == values[1..][i - 1];
        } else {
          assert k !in rest by {
            forall j | 0 <= j < |rest| ensures rest[j] != k {
              assert rest[j] == keys[j + 1];
            }
          }
        }
      }
      forall other | other in acc.entries && other !in keys
        ensures other in r.value.entries && r.value.entries[other] == acc.entries[other]
      {
        assert other != k;
        assert other !in rest;
      }
    }
  }
}
