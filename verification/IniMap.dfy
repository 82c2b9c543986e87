/** INIMap: values under trimmed, case-folded keys, in order of insertion. */
module IniMap {
  import opened Text

  /** What every operation does to its key first. */
  function Normal(key: string): string { Lower(Trim(key)) }

  lemma NormalShape(key: string)
    ensures IsTrimmed(Normal(key)) && Normal(Normal(key)) == Normal(key)
    ensures Normal(key) == key ==> IsTrimmed(key)
  {
    var n := Normal(key);
    assert n != "" ==> n[0] == LowerChar(Trim(key)[0]) && n[|n| - 1] == LowerChar(Trim(key)[|n| - 1]);
    TrimOfTrimmed(n);
    assert Lower(n) == n;
  }

  predicate IsCapitalOf(c: char, d: char) { 'A' <= c <= 'Z' && d as int == c as int + ('a' as int - 'A' as int) }

  /** The same character, or one letter as a capital and a small one. */
  predicate SameLetter(c: char, d: char) { c == d || IsCapitalOf(c, d) || IsCapitalOf(d, c) }

  lemma LowerIsSame(c: char, d: char)
    ensures LowerChar(c) == LowerChar(d) <==> SameLetter(c, d)
  {
  }

  /** Two names are the same exactly when they differ in nothing but blanks around them and the case of letters. */
  lemma SameName(before: string, a: string, after: string, b: string)
    requires AllSpace(before) && AllSpace(after) && IsTrimmed(a) && IsTrimmed(b)
    ensures Normal(before + a + after) == Normal(b) <==>
      |a| == |b| && forall i | 0 <= i < |a| :: SameLetter(a[i], b[i])
  {
    hide Trim, LowerChar, SameLetter;
    TrimUnique(before, a, after);
    TrimOfTrimmed(b);
    forall c, d ensures LowerChar(c) == LowerChar(d) <==> SameLetter(c, d) { LowerIsSame(c, d); }
    if Lower(a) == Lower(b) {
      forall i | 0 <= i < |a| ensures SameLetter(a[i], b[i]) { assert Lower(a)[i] == Lower(b)[i]; }
    } else if |a| == |b| {
      var i :| 0 <= i < |a| && Lower(a)[i] != Lower(b)[i];
      assert !SameLetter(a[i], b[i]);
    }
  }

  lemma NormalOfPlain(s: string)
    requires s != "" && IsTrimmed(s) && forall i | 0 <= i < |s| :: !('A' <= s[i] <= 'Z')
    ensures Normal(s) == s
  {
    TrimOfTrimmed(s);
    assert Lower(s) == s;
  }

  // ---- the ordered association list that specifies the class ----

  type Items<T> = seq<(string, T)>

  /** Linear search: the position of a key, or the length. */
  function Find<T>(m: Items<T>, key: string): (r: nat)
    ensures r <= |m|
    ensures forall i | 0 <= i < r :: m[i].0 != key
    ensures r < |m| ==> m[r].0 == key
  {
    if m == [] || m[0].0 == key then 0 else 1 + Find(m[1..], key)
  }

  predicate Has<T>(m: Items<T>, key: string) { Find(m, key) < |m| }

  function Get<T>(m: Items<T>, key: string): T
    requires Has(m, key)
  {
    m[Find(m, key)].1
  }

  /** The value of a key, or a default one. */
  function Lookup<T>(m: Items<T>, key: string, default: T): T {
    if Has(m, key) then Get(m, key) else default
  }

  function Put<T>(m: Items<T>, key: string, value: T): Items<T> {
    var i := Find(m, key);
    if i < |m| then m[i := (key, value)] else m + [(key, value)]
  }

  /** operator[]: an unknown key appears with a default value. */
  function Touch<T>(m: Items<T>, key: string, default: T): Items<T> {
    if Has(m, key) then m else m + [(key, default)]
  }

  function Without<T>(m: Items<T>, key: string): Items<T> {
    var i := Find(m, key);
    if i < |m| then m[..i] + m[i + 1..] else m
  }

  /** Every key is in its normal form, and no two items share one. */
  predicate WellFormed<T>(m: Items<T>) {
    forall i | 0 <= i < |m| :: Normal(m[i].0) == m[i].0 && Find(m, m[i].0) == i
  }

  function Keys<T>(m: Items<T>): set<string> { set i | 0 <= i < |m| :: m[i].0 }

  /** The association list without its order. */
  function View<T>(m: Items<T>): map<string, T> { map k | k in Keys(m) :: Get(m, k) }

  lemma HasIsKey<T>(m: Items<T>, key: string)
    ensures Has(m, key) <==> key in Keys(m)
  {
  }

  lemma {:induction false} FindIs<T>(m: Items<T>, key: string, i: nat)
    requires i <= |m| && forall j | 0 <= j < i :: m[j].0 != key
    requires i < |m| ==> m[i].0 == key
    ensures Find(m, key) == i
  {
  }

  /** Insertion moves no other item. */
  lemma {:induction false} FindAfterPut<T>(m: Items<T>, key: string, value: T, k: string)
    ensures Find(Put(m, key, value), k) == if k == key || Has(m, k) then Find(m, k) else |Put(m, key, value)|
  {
    var n, i := Put(m, key, value), Find(m, k);
    assert forall j | 0 <= j < |m| :: n[j].0 == m[j].0;
    FindIs(n, k, if k == key || Has(m, k) then i else |n|);
  }

  lemma {:induction false} PutWellFormed<T>(m: Items<T>, key: string, value: T)
    requires WellFormed(m) && Normal(key) == key
    ensures WellFormed(Put(m, key, value))
  {
    var n := Put(m, key, value);
    forall i | 0 <= i < |n| ensures Normal(n[i].0) == n[i].0 && Find(n, n[i].0) == i {
      FindAfterPut(m, key, value, n[i].0);
      if i < |m| { assert n[i].0 == m[i].0; }
    }
  }

  /** Insertion adds or replaces one binding. */
  lemma {:induction false} PutView<T>(m: Items<T>, key: string, value: T)
    ensures View(Put(m, key, value)) == View(m)[key := value]
  {
    var n := Put(m, key, value);
    forall k ensures k in Keys(n) <==> k in Keys(m) || k == key {
      FindAfterPut(m, key, value, k);
      HasIsKey(m, k);
      HasIsKey(n, k);
    }
    forall k | k in Keys(n) ensures Get(n, k) == if k == key then value else Get(m, k) {
      FindAfterPut(m, key, value, k);
    }
  }

  /** n is m without its item number at. */
  predicate Erased<T(==)>(m: Items<T>, at: nat, n: Items<T>) {
    && at < |m| == |n| + 1
    && (forall j | 0 <= j < at :: n[j] == m[j])
    && (forall j | at <= j < |n| :: n[j] == m[j + 1])
  }

  lemma {:induction false} WithoutErases<T>(m: Items<T>, key: string)
    requires Has(m, key)
    ensures Erased(m, Find(m, key), Without(m, key))
  {
  }

  /** Removal shifts the positions after the removed one and keeps the order. */
  lemma {:induction false} FindAfterErase<T>(m: Items<T>, at: nat, n: Items<T>, k: string)
    requires WellFormed(m) && Erased(m, at, n)
    ensures Find(n, k) == if k == m[at].0 then |n| else if Find(m, k) < at then Find(m, k) else Find(m, k) - 1
  {
    hide Find, Normal;
    var f := Find(m, k);
    if k == m[at].0 {
      forall j | 0 <= j < |n| ensures n[j].0 != k { KeysDiffer(m, at, if j < at then j else j + 1); }
      FindIs(n, k, |n|);
    } else if f < at {
      FindIs(n, k, f);
    } else {
      forall j | 0 <= j < f - 1 ensures n[j].0 != k { assert n[j] == m[if j < at then j else j + 1]; }
      FindIs(n, k, f - 1);
    }
  }

  lemma KeysDiffer<T>(m: Items<T>, i: nat, j: nat)
    requires WellFormed(m) && i < |m| && j < |m| && i != j
    ensures m[i].0 != m[j].0
  {
    hide Find, Normal;
    assert Find(m, m[i].0) == i && Find(m, m[j].0) == j;
  }

  lemma {:induction false} WithoutWellFormed<T>(m: Items<T>, key: string)
    requires WellFormed(m)
    ensures WellFormed(Without(m, key))
  {
    if Has(m, key) {
      var n, at := Without(m, key), Find(m, key);
      WithoutErases(m, key);
      forall i | 0 <= i < |n| ensures Normal(n[i].0) == n[i].0 && Find(n, n[i].0) == i {
        assert n[i] == if i < at then m[i] else m[i + 1];
        FindAfterErase(m, at, n, n[i].0);
      }
    }
  }

  /** Removal drops one binding and keeps the others. */
  lemma {:induction false} WithoutView<T>(m: Items<T>, key: string)
    requires WellFormed(m)
    ensures forall k :: Has(Without(m, key), k) <==> Has(m, k) && k != key
    ensures forall k | Has(Without(m, key), k) :: Get(Without(m, key), k) == Get(m, k)
  {
    hide Find, Normal, WellFormed, Without;
    var n := Without(m, key);
    if Has(m, key) {
      WithoutErases(m, key);
      forall k ensures Has(n, k) <==> Has(m, k) && k != key
               ensures Has(n, k) ==> Get(n, k) == Get(m, k) {
        FindAfterErase(m, Find(m, key), n, k);
      }
    } else {
      NothingWithout(m, key);
    }
  }

  lemma NothingWithout<T>(m: Items<T>, key: string)
    requires !Has(m, key)
    ensures Without(m, key) == m
  {
  }

  // ---- the class ----

  ghost predicate IndexOfItems<T>(m: Items<T>, index: map<string, nat>) {
    forall k {:trigger k in index} :: if k in index then index[k] == Find(m, k) < |m| else !Has(m, k)
  }

  /** Erasing an item and moving the later indices down keeps the index exact. */
  lemma {:induction false} ShiftedIndexIsValid<T>(m: Items<T>, at: nat, n: Items<T>, index: map<string, nat>,
    shifted: map<string, nat>)
    requires WellFormed(m) && Erased(m, at, n) && IndexOfItems(m, index)
    requires forall k :: k in shifted <==> k in index && k != m[at].0
    requires forall k | k in shifted :: shifted[k] == if index[k] > at then index[k] - 1 else index[k]
    ensures IndexOfItems(n, shifted)
  {
    forall k ensures if k in shifted then shifted[k] == Find(n, k) < |n| else !Has(n, k) {
      FindAfterErase(m, at, n, k);
      assert k in index <==> Has(m, k);
    }
  }

  class INIMap<T> {
    var data: seq<(string, T)>
    var dataIndexMap: map<string, nat>

    /** The index is a bijection between the keys and the positions of data. */
    ghost predicate Valid()
      reads this
    {
      WellFormed(data) && IndexOfItems(data, dataIndexMap)
    }

    constructor ()
      ensures Valid() && data == []
    {
      data, dataIndexMap := [], map[];
    }

    method SetEmpty(key: string, default: T) returns (index: nat)
      requires Valid() && Normal(key) == key && key !in dataIndexMap
      modifies this
      ensures Valid() && data == Put(old(data), key, default)
      ensures index == |old(data)| == Find(data, key)
    {
      index := |data|;
      dataIndexMap := dataIndexMap[key := index];
      data := data + [(key, default)];
      PutWellFormed(old(data), key, default);
      forall k ensures Find(data, k) == if k == key || Has(old(data), k) then Find(old(data), k) else |data| {
        FindAfterPut(old(data), key, default, k);
      }
    }

    /** operator[]: returns the position of the value the reference denotes. */
    method Index(key: string, default: T) returns (index: nat)
      requires Valid()
      modifies this
      ensures Valid() && data == Touch(old(data), Normal(key), default)
      ensures index == Find(data, Normal(key)) < |data|
    {
      var k := Normal(key);
      NormalShape(key);
      if k in dataIndexMap {
        index := dataIndexMap[k];
      } else {
        index := SetEmpty(k, default);
      }
    }

    method GetValue(key: string, default: T) returns (value: T)
      requires Valid()
      ensures value == Lookup(data, Normal(key), default)
    {
      var k := Normal(key);
      value := if k in dataIndexMap then data[dataIndexMap[k]].1 else default;
    }

    method HasKey(key: string) returns (found: bool)
      requires Valid()
      ensures found <==> Has(data, Normal(key))
    {
      found := Normal(key) in dataIndexMap;
    }

    method Set(key: string, value: T)
      requires Valid()
      modifies this
      ensures Valid() && data == Put(old(data), Normal(key), value)
    {
      var k := Normal(key);
      NormalShape(key);
      if k in dataIndexMap {
        data := data[dataIndexMap[k] := (k, value)];
        PutWellFormed(old(data), k, value);
        forall j ensures Find(data, j) == Find(old(data), j) {
          FindAfterPut(old(data), k, value, j);
        }
      } else {
        var _ := SetEmpty(k, value);
      }
    }

    /** set with several pairs: as if set one by one. */
    method SetAll(multiArgs: seq<(string, T)>)
      requires Valid()
      modifies this
      ensures Valid() && data == PutAll(old(data), multiArgs)
    {
      var i := 0;
      while i < |multiArgs|
        invariant 0 <= i <= |multiArgs| && Valid()
        invariant PutAll(data, multiArgs[i..]) == PutAll(old(data), multiArgs)
      {
        Set(multiArgs[i].0, multiArgs[i].1);
        i := i + 1;
      }
    }

    /** The loop of remove over the index: positions after index move down by one. */
    method ShiftAfter(index: nat)
      modifies this`dataIndexMap
      ensures dataIndexMap.Keys == old(dataIndexMap).Keys
      ensures forall j | j in dataIndexMap ::
        dataIndexMap[j] == if old(dataIndexMap)[j] > index then old(dataIndexMap)[j] - 1 else old(dataIndexMap)[j]
    {
      var before := dataIndexMap;
      var todo := before.Keys;
      while todo != {}
        invariant dataIndexMap.Keys == before.Keys >= todo
        invariant forall j | j in before ::
          dataIndexMap[j] == if j !in todo && before[j] > index then before[j] - 1 else before[j]
      {
        var j :| j in todo;
        if dataIndexMap[j] > index {
          dataIndexMap := dataIndexMap[j := dataIndexMap[j] - 1];
        }
        todo := todo - {j};
      }
    }

    /** Erases the item and moves every later index down by one. */
    method Remove(key: string) returns (removed: bool)
      requires Valid()
      modifies this
      ensures Valid() && data == Without(old(data), Normal(key))
      ensures removed <==> Has(old(data), Normal(key))
    {
      hide Find, Normal, WellFormed, Erased;
      var k := Normal(key);
      removed := k in dataIndexMap;
      if removed {
        var index := dataIndexMap[k];
        data := data[..index] + data[index + 1..];
        dataIndexMap := dataIndexMap - {k};
        ShiftAfter(index);
        WithoutWellFormed(old(data), k);
        WithoutErases(old(data), k);
        ShiftedIndexIsValid(old(data), index, data, old(dataIndexMap), dataIndexMap);
      }
    }

    method Clear()
      modifies this
      ensures Valid() && data == []
    {
      data, dataIndexMap := [], map[];
    }
  }

  function PutAll<T>(m: Items<T>, pairs: seq<(string, T)>): Items<T>
    decreases pairs
  {
    if pairs == [] then m else PutAll(Put(m, Normal(pairs[0].0), pairs[0].1), pairs[1..])
  }
}
