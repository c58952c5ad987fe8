/** Lists kept unique by a key, as the domain does with `find`/`filter` on
    toppings (by id), allergies (by name), order items and cart items (by pizza id),
    and `[...new Set(xs)]` for allergen lists. */
module Keyed {
  import opened Wrappers

  predicate HasKey<T, K(==)>(s: seq<T>, key: T -> K, k: K) {
    exists i :: 0 <= i < |s| && key(s[i]) == k
  }

  /** `s.findIndex(x => key(x) === k)`, as an option. */
  function Find<T, K(==)>(s: seq<T>, key: T -> K, k: K): (r: Option<nat>)
    ensures r.None? <==> !HasKey(s, key, k)
    ensures r.Some? ==> r.value < |s| && key(s[r.value]) == k
    ensures r.Some? ==> forall j :: 0 <= j < r.value ==> key(s[j]) != k
  {
    if s == [] then None
    else if key(s[0]) == k then Some(0)
    else match Find(s[1..], key, k)
      case None => None
      case Some(j) => Some(j + 1)
  }

  /** `s.filter(x => key(x) !== k)` */
  function RemoveKey<T, K(==)>(s: seq<T>, key: T -> K, k: K): (r: seq<T>)
    ensures |r| <= |s|
  {
    if s == [] then []
    else (if key(s[0]) == k then [] else [s[0]]) + RemoveKey(s[1..], key, k)
  }

  /** The filter keeps exactly the elements whose key is not k. */
  lemma {:induction false} RemoveKeyMembers<T, K>(s: seq<T>, key: T -> K, k: K)
    ensures var r := RemoveKey(s, key, k);
            && (forall i :: 0 <= i < |r| ==> r[i] in s && key(r[i]) != k)
            && (forall i :: 0 <= i < |s| && key(s[i]) != k ==> s[i] in r)
  {
    if s != [] {
      RemoveKeyMembers(s[1..], key, k);
      var rest := RemoveKey(s[1..], key, k);
      var r := RemoveKey(s, key, k);
      assert forall x :: x in s[1..] ==> x in s;
      if key(s[0]) == k {
        assert r == rest;
      } else {
        assert r == [s[0]] + rest;
      }
      forall i | 0 <= i < |r| ensures r[i] in s && key(r[i]) != k {
        var j := if key(s[0]) == k then i else i - 1;
        if j >= 0 {
          assert r[i] == rest[j] && rest[j] in s[1..];
          var m :| 0 <= m < |s[1..]| && s[1..][m] == rest[j];
          assert s[m + 1] == r[i];
        }
      }
      forall i | 0 <= i < |s| && key(s[i]) != k ensures s[i] in r {
        if i > 0 { assert s[i] == s[1..][i - 1]; }
      }
    }
  }

  /** `s.filter(x => key(x) === k)` */
  function WithKey<T, K(==)>(s: seq<T>, key: T -> K, k: K): (r: seq<T>)
    ensures |r| <= |s|
  {
    if s == [] then []
    else (if key(s[0]) == k then [s[0]] else []) + WithKey(s[1..], key, k)
  }

  /** The filter keeps exactly the elements whose key is k. */
  lemma {:induction false} WithKeyMembers<T, K>(s: seq<T>, key: T -> K, k: K)
    ensures var r := WithKey(s, key, k);
            && (forall i :: 0 <= i < |r| ==> r[i] in s && key(r[i]) == k)
            && (forall i :: 0 <= i < |s| && key(s[i]) == k ==> s[i] in r)
  {
    if s != [] {
      WithKeyMembers(s[1..], key, k);
      var rest := WithKey(s[1..], key, k);
      var r := WithKey(s, key, k);
      assert forall x :: x in s[1..] ==> x in s;
      if key(s[0]) == k {
        assert r == [s[0]] + rest;
      } else {
        assert r == rest;
      }
      forall i | 0 <= i < |r| ensures r[i] in s && key(r[i]) == k {
        var j := if key(s[0]) != k then i else i - 1;
        if j >= 0 {
          assert r[i] == rest[j] && rest[j] in s[1..];
          var m :| 0 <= m < |s[1..]| && s[1..][m] == rest[j];
          assert s[m + 1] == r[i];
        }
      }
      forall i | 0 <= i < |s| && key(s[i]) == k ensures s[i] in r {
        if i > 0 { assert s[i] == s[1..][i - 1]; }
      }
    }
  }

  /** No two elements share a key. */
  predicate UniqueKeys<T, K(==)>(s: seq<T>, key: T -> K) {
    forall i, j :: 0 <= i < j < |s| ==> key(s[i]) != key(s[j])
  }

  lemma {:induction false} RemoveKeyAbsent<T, K>(s: seq<T>, key: T -> K, k: K)
    requires !HasKey(s, key, k)
    ensures RemoveKey(s, key, k) == s
  {
    if s != [] {
      assert key(s[0]) != k;
      assert !HasKey(s[1..], key, k) by {
        forall i | 0 <= i < |s[1..]| ensures key(s[1..][i]) != k {
          assert s[1..][i] == s[i + 1];
        }
      }
      RemoveKeyAbsent(s[1..], key, k);
    }
  }

  /** A single element survives the filter exactly when its key is another one. */
  lemma RemoveKeyOne<T, K>(x: T, key: T -> K, k: K)
    ensures RemoveKey([x], key, k) == if key(x) != k then [x] else []
  {
    assert [x][1..] == [];
  }

  /** The filter splits over a concatenation, so the kept elements keep their order. */
  lemma {:induction false} RemoveKeyAppend<T, K>(a: seq<T>, b: seq<T>, key: T -> K, k: K)
    ensures RemoveKey(a + b, key, k) == RemoveKey(a, key, k) + RemoveKey(b, key, k)
  {
    if a == [] {
      assert a + b == b;
    } else {
      assert (a + b)[1..] == a[1..] + b;
      RemoveKeyAppend(a[1..], b, key, k);
    }
  }

  /** When no other element shares the key of the element at i, removing that key drops
      exactly that element and keeps the others in order. */
  lemma RemoveKeyAt<T, K>(s: seq<T>, key: T -> K, i: nat)
    requires i < |s| && forall j :: 0 <= j < |s| && j != i ==> key(s[j]) != key(s[i])
    ensures RemoveKey(s, key, key(s[i])) == s[..i] + s[i + 1..]
  {
    SplitAt(s, i);
    AbsentAround(s, key, i);
    RemoveKeyAround(s[..i], s[i], s[i + 1..], key);
  }

  /** Neither side of the only element with its key holds that key. */
  lemma AbsentAround<T, K>(s: seq<T>, key: T -> K, i: nat)
    requires i < |s| && forall j :: 0 <= j < |s| && j != i ==> key(s[j]) != key(s[i])
    ensures !HasKey(s[..i], key, key(s[i])) && !HasKey(s[i + 1..], key, key(s[i]))
  {
    var k, before, after := key(s[i]), s[..i], s[i + 1..];
    forall j | 0 <= j < |before| ensures key(before[j]) != k {
      assert before[j] == s[j];
    }
    forall j | 0 <= j < |after| ensures key(after[j]) != k {
      assert after[j] == s[i + 1 + j];
    }
  }

  /** With unique keys, the element at i is the only one with its key. */
  lemma UniqueKeysAt<T, K>(s: seq<T>, key: T -> K, i: nat)
    requires UniqueKeys(s, key) && i < |s|
    ensures forall j :: 0 <= j < |s| && j != i ==> key(s[j]) != key(s[i])
  {
    forall j | 0 <= j < |s| && j != i ensures key(s[j]) != key(s[i]) {
      if j < i { assert key(s[j]) != key(s[i]); } else { assert key(s[i]) != key(s[j]); }
    }
  }

  /** A list is what comes before a place, the element there, and what comes after. */
  lemma SplitAt<T>(s: seq<T>, i: nat)
    requires i < |s|
    ensures s == s[..i] + [s[i]] + s[i + 1..]
  {
  }

  /** Removing the key of the one element that carries it. */
  lemma RemoveKeyAround<T, K>(before: seq<T>, x: T, after: seq<T>, key: T -> K)
    requires !HasKey(before, key, key(x)) && !HasKey(after, key, key(x))
    ensures RemoveKey(before + [x] + after, key, key(x)) == before + after
  {
    var k := key(x);
    calc {
      RemoveKey(before + [x] + after, key, k);
      { RemoveKeyAppend(before + [x], after, key, k); }
      RemoveKey(before + [x], key, k) + RemoveKey(after, key, k);
      { RemoveKeyAppend(before, [x], key, k); RemoveKeyAbsent(after, key, k); }
      RemoveKey(before, key, k) + RemoveKey([x], key, k) + after;
      { RemoveKeyAbsent(before, key, k); RemoveKeyOne(x, key, k); }
      before + [] + after;
    }
    assert before + [] + after == before + after;
  }

  lemma {:induction false} RemoveKeyKeepsUnique<T, K>(s: seq<T>, key: T -> K, k: K)
    requires UniqueKeys(s, key)
    ensures UniqueKeys(RemoveKey(s, key, k), key)
  {
    if s != [] {
      var rest := RemoveKey(s[1..], key, k);
      assert UniqueKeys(s[1..], key) by {
        forall i, j | 0 <= i < j < |s[1..]| ensures key(s[1..][i]) != key(s[1..][j]) {
          assert s[1..][i] == s[i + 1] && s[1..][j] == s[j + 1];
        }
      }
      RemoveKeyKeepsUnique(s[1..], key, k);
      if key(s[0]) != k {
        forall j | 0 <= j < |rest| ensures key(s[0]) != key(rest[j]) {
          assert rest[j] in s[1..] by { RemoveKeyMembers(s[1..], key, k); }
          var m :| 0 <= m < |s[1..]| && s[1..][m] == rest[j];
          assert s[m + 1] == rest[j];
        }
        var r := [s[0]] + rest;
        forall i, j | 0 <= i < j < |r| ensures key(r[i]) != key(r[j]) {
          if i > 0 { assert r[i] == rest[i - 1] && r[j] == rest[j - 1]; }
          else { assert r[j] == rest[j - 1]; }
        }
      } else {
        assert RemoveKey(s, key, k) == rest;
      }
    }
  }

  lemma AppendKeepsUnique<T, K>(s: seq<T>, key: T -> K, x: T)
    requires UniqueKeys(s, key) && !HasKey(s, key, key(x))
    ensures UniqueKeys(s + [x], key)
  {
    var r := s + [x];
    forall i, j | 0 <= i < j < |r| ensures key(r[i]) != key(r[j]) {
      assert r[i] == s[i];
      if j == |s| {
        assert r[j] == x;
      } else {
        assert r[j] == s[j];
      }
    }
  }

  lemma UpdateKeepsUnique<T, K>(s: seq<T>, key: T -> K, i: nat, x: T)
    requires UniqueKeys(s, key) && i < |s| && key(x) == key(s[i])
    ensures UniqueKeys(s[i := x], key)
  {
  }

  /** `s.find(x => key(x) === k)`: the first element with key k, if any. */
  function Get<T, K(==)>(s: seq<T>, key: T -> K, k: K): (r: Option<T>)
    ensures r.None? <==> !HasKey(s, key, k)
    ensures r.Some? ==> key(r.value) == k
    ensures r.Some? ==> exists i :: 0 <= i < |s| && s[i] == r.value
  {
    match Find(s, key, k)
    case Some(i) => Some(s[i])
    case None => None
  }

  /** `map.set(key(x), x)` on an insertion-ordered map held as its list of entries: a key
      already present keeps its place, a new key goes last. */
  function Upsert<T, K(==)>(s: seq<T>, key: T -> K, x: T): (r: seq<T>)
    ensures HasKey(s, key, key(x)) ==> |r| == |s|
    ensures !HasKey(s, key, key(x)) ==> r == s + [x]
  {
    match Find(s, key, key(x))
    case Some(i) => s[i := x]
    case None => s + [x]
  }

  /** An upsert puts the entry at exactly one place, `p`, and keeps every other place. */
  lemma UpsertShape<T, K>(s: seq<T>, key: T -> K, x: T) returns (p: nat)
    ensures var r := Upsert(s, key, x);
            && p < |r| && r[p] == x
            && forall i :: 0 <= i < |r| && i != p ==> i < |s| && r[i] == s[i]
  {
    match Find(s, key, key(x))
    case Some(i) => p := i;
    case None => p := |s|;
  }

  /** After an upsert the key finds the new entry. */
  lemma UpsertGet<T, K>(s: seq<T>, key: T -> K, x: T)
    ensures Get(Upsert(s, key, x), key, key(x)) == Some(x)
  {
    var r := Upsert(s, key, x);
    match Find(s, key, key(x))
    case Some(i) =>
      assert r == s[i := x];
      assert Find(r, key, key(x)) == Some(i) by {
        FindFirst(r, key, key(x), i);
      }
    case None =>
      assert r == s + [x];
      assert Find(r, key, key(x)) == Some(|s|) by {
        FindFirst(r, key, key(x), |s|);
      }
  }

  /** An upsert leaves every other key's lookup as it was. */
  lemma UpsertOther<T, K>(s: seq<T>, key: T -> K, x: T, k: K)
    requires k != key(x)
    ensures Get(Upsert(s, key, x), key, k) == Get(s, key, k)
  {
    var r := Upsert(s, key, x);
    assert forall i :: 0 <= i < |s| ==> (key(r[i]) == k <==> key(s[i]) == k);
    match Find(s, key, k)
    case Some(i) =>
      FindFirst(r, key, k, i);
    case None =>
      assert !HasKey(r, key, k);
  }

  lemma UpsertKeepsUnique<T, K>(s: seq<T>, key: T -> K, x: T)
    requires UniqueKeys(s, key)
    ensures UniqueKeys(Upsert(s, key, x), key)
  {
    match Find(s, key, key(x))
    case Some(i) => UpdateKeepsUnique(s, key, i, x);
    case None => AppendKeepsUnique(s, key, x);
  }

  /** Storing an entry that is already stored changes nothing. */
  lemma UpsertStored<T, K>(s: seq<T>, key: T -> K, i: nat)
    requires UniqueKeys(s, key) && i < |s|
    ensures Upsert(s, key, s[i]) == s
  {
    FindFirst(s, key, key(s[i]), i);
  }

  /** The first index holding key k is what Find returns. */
  lemma {:induction false} FindFirst<T, K>(s: seq<T>, key: T -> K, k: K, i: nat)
    requires i < |s| && key(s[i]) == k
    requires forall j :: 0 <= j < i ==> key(s[j]) != k
    ensures Find(s, key, k) == Some(i)
  {
    if i > 0 {
      FindFirst(s[1..], key, k, i - 1);
    }
  }

  /** Looking a key up in a list with one element in front. */
  lemma GetCons<T, K>(x: T, t: seq<T>, key: T -> K, k: K)
    ensures Get([x] + t, key, k) == if key(x) == k then Some(x) else Get(t, key, k)
  {
    assert ([x] + t)[1..] == t;
  }

  /** `map.delete(k)`: the key is gone and every other lookup is as it was. */
  lemma {:induction false} RemoveKeyGet<T, K>(s: seq<T>, key: T -> K, k: K, k': K)
    ensures Get(RemoveKey(s, key, k), key, k) == None
    ensures k' != k ==> Get(RemoveKey(s, key, k), key, k') == Get(s, key, k')
  {
    assert !HasKey(RemoveKey(s, key, k), key, k) by { RemoveKeyMembers(s, key, k); }
    if s != [] && k' != k {
      RemoveKeyGet(s[1..], key, k, k');
      var rest := RemoveKey(s[1..], key, k);
      assert s == [s[0]] + s[1..];
      GetCons(s[0], s[1..], key, k');
      if key(s[0]) != k {
        assert RemoveKey(s, key, k) == [s[0]] + rest;
        GetCons(s[0], rest, key, k');
      } else {
        assert RemoveKey(s, key, k) == rest;
      }
    }
  }

  predicate NoDuplicates<T(==)>(s: seq<T>) {
    forall i, j :: 0 <= i < j < |s| ==> s[i] != s[j]
  }

  /** `[...new Set(s)]`: the elements of s, each kept at its first occurrence. */
  function Distinct<T(==)>(s: seq<T>): (r: seq<T>)
    ensures |r| <= |s|
  {
    if s == [] then []
    else
      var d := Distinct(s[..|s| - 1]);
      if s[|s| - 1] in d then d else d + [s[|s| - 1]]
  }

  /** The result holds no element twice, and holds exactly the elements of s. */
  lemma {:induction false} DistinctFacts<T>(s: seq<T>)
    ensures NoDuplicates(Distinct(s))
    ensures forall i :: 0 <= i < |Distinct(s)| ==> Distinct(s)[i] in s
    ensures forall i :: 0 <= i < |s| ==> s[i] in Distinct(s)
  {
    if s != [] {
      var p, last := s[..|s| - 1], s[|s| - 1];
      DistinctFacts(p);
      var d := Distinct(p);
      assert s == p + [last];
      if last in d {
        assert Distinct(s) == d;
      } else {
        assert Distinct(s) == d + [last];
      }
    }
  }

  /** Deduplicating a list without duplicates gives it back unchanged. */
  lemma {:induction false} DistinctOfDistinct<T>(s: seq<T>)
    requires NoDuplicates(s)
    ensures Distinct(s) == s
  {
    if s != [] {
      var p := s[..|s| - 1];
      assert NoDuplicates(p);
      DistinctOfDistinct(p);
      assert s[|s| - 1] !in p;
      assert s == p + [s[|s| - 1]];
    }
  }

  /** Deduplication keeps an already duplicate-free prefix in place. */
  lemma {:induction false} DistinctKeepsPrefix<T>(a: seq<T>, b: seq<T>)
    requires NoDuplicates(a)
    ensures |Distinct(a + b)| >= |a| && Distinct(a + b)[..|a|] == a
  {
    if b == [] {
      assert a + b == a;
      DistinctOfDistinct(a);
    } else {
      var b' := b[..|b| - 1];
      assert (a + b)[..|a + b| - 1] == a + b';
      DistinctKeepsPrefix(a, b');
    }
  }
}
