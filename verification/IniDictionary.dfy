/** The dictionary of iniparser.c: slots with holes, cached hashes, and growth by doubling. */
module IniDictionary {
  import opened Common

  /** How many slots are taken. */
  function Taken(keys: seq<Option<string>>): (n: nat)
    ensures n <= |keys|
  {
    if keys == [] then 0 else Taken(keys[..|keys| - 1]) + (if keys[|keys| - 1].Some? then 1 else 0)
  }

  lemma {:induction false} TakenSet(keys: seq<Option<string>>, i: nat, k: Option<string>)
    requires i < |keys|
    ensures Taken(keys[i := k]) == Taken(keys) - (if keys[i].Some? then 1 else 0) + (if k.Some? then 1 else 0)
  {
    var n := |keys| - 1;
    if i < n {
      TakenSet(keys[..n], i, k);
      assert keys[i := k][..n] == keys[..n][i := k];
    } else {
      assert keys[i := k][..n] == keys[..n];
    }
  }

  /** A dictionary that is not full has a hole, and a full one has none. */
  lemma {:induction false} HoleExists(keys: seq<Option<string>>)
    ensures Taken(keys) < |keys| <==> exists i :: 0 <= i < |keys| && keys[i] == None
  {
    if keys != [] {
      var n := |keys| - 1;
      HoleExists(keys[..n]);
      if Taken(keys[..n]) < n {
        var i :| 0 <= i < n && keys[..n][i] == None;
        assert keys[i] == None;
      }
      forall i | 0 <= i < |keys| && keys[i] == None ensures Taken(keys) < |keys| {
        if i < n {
          assert keys[..n][i] == None;
        }
      }
    }
  }

  lemma {:induction false} TakenAppendHoles(keys: seq<Option<string>>, holes: seq<Option<string>>)
    requires forall i :: 0 <= i < |holes| ==> holes[i] == None
    ensures Taken(keys + holes) == Taken(keys)
  {
    if holes == [] {
      assert keys + holes == keys;
    } else {
      var n := |holes| - 1;
      TakenAppendHoles(keys, holes[..n]);
      assert (keys + holes)[..|keys| + n] == keys + holes[..n];
    }
  }

  /** The slots hold the map: each key once, with its value and its hash; holes hold nothing and hash 0. */
  ghost predicate Represents(keys: seq<Option<string>>, vals: seq<Option<string>>, hashes: seq<nat>,
                             hash: string -> nat, m: map<string, Option<string>>) {
    && |keys| == |vals| == |hashes|
    && (forall i :: 0 <= i < |keys| && keys[i].Some? ==>
          hashes[i] == hash(keys[i].value) && keys[i].value in m && m[keys[i].value] == vals[i])
    && (forall i :: 0 <= i < |keys| && keys[i].None? ==> hashes[i] == 0 && vals[i] == None)
    && (forall i, j :: 0 <= i < j < |keys| && keys[i].Some? ==> keys[i] != keys[j])
    && (forall k :: k in m ==> Some(k) in keys)
  }

  /** `mem_double`: twice the room, the new half zeroed. */
  method MemDouble<T>(a: array<T>, zero: T) returns (b: array<T>)
    ensures fresh(b) && b.Length == 2 * a.Length && b[..a.Length] == a[..]
    ensures forall i :: a.Length <= i < b.Length ==> b[i] == zero
  {
    b := new T[2 * a.Length](_ => zero);
    for i := 0 to a.Length
      invariant forall j :: 0 <= j < i ==> b[j] == a[j]
      invariant forall j :: i <= j < b.Length ==> b[j] == zero
    {
      b[i] := a[i];
    }
  }

  lemma InSlots(keys: seq<Option<string>>, vals: seq<Option<string>>, hashes: seq<nat>,
                hash: string -> nat, m: map<string, Option<string>>, k: string)
    requires Represents(keys, vals, hashes, hash, m)
    ensures k in m <==> exists i :: 0 <= i < |keys| && keys[i] == Some(k)
  {
  }

  class Dictionary {
    /** `key`, `val` and `hash`, all of length `size`; `n` of the slots are taken. */
    var key: array<Option<string>>
    var val: array<Option<string>>
    var hash: array<nat>
    var n: nat
    /** `dictionary_hash`: any function will do. */
    const hashOf: string -> nat
    /** What the dictionary stands for; a key may have the value NULL. */
    ghost var contents: map<string, Option<string>>

    ghost predicate Valid()
      reads this, key, val, hash
    {
      && key != val && 0 < key.Length
      && Represents(key[..], val[..], hash[..], hashOf, contents) && n == Taken(key[..])
    }

    /** `dictionary_new`: at least 128 slots. */
    constructor (size: nat, hashOf: string -> nat)
      ensures Valid() && fresh(key) && fresh(val) && fresh(hash) && contents == map[] && this.hashOf == hashOf
      ensures key.Length == if size < 128 then 128 else size
    {
      var slots := if size < 128 then 128 else size;
      this.hashOf := hashOf;
      n, contents := 0, map[];
      key := new Option<string>[slots](_ => None);
      val := new Option<string>[slots](_ => None);
      hash := new nat[slots](_ => 0);
      new;
      NothingTaken(key[..]);
    }

    /**
      `dictionary_get`. It does not skip holes, whose hash is 0: asking for a key of hash 0 that is not in
      a slot before the first hole compares it with a null pointer, for which the result None stands.
      Otherwise the value of the key is found, or the default is returned.
      */
    method Get(k: string, def: Option<string>) returns (r: Option<Option<string>>)
      requires Valid()
      ensures r == None <==>
        hashOf(k) == 0 &&
          exists i :: 0 <= i < key.Length && key[i] == None && forall j :: 0 <= j < i ==> key[j] != Some(k)
      ensures r.Some? ==> r.value == if k in contents then contents[k] else def
    {
      InSlots(key[..], val[..], hash[..], hashOf, contents, k);
      var i := Locate(k);
      if i == key.Length {
        return Some(def);
      }
      r := if key[i] == None then None else Some(val[i]);
    }

    /** The search of `dictionary_get`: the first slot of the same hash that is a hole or has the same key. */
    method Locate(k: string) returns (i: nat)
      requires Valid()
      ensures i <= key.Length
      ensures i < key.Length ==> key[i] == Some(k) || (key[i] == None && hashOf(k) == 0)
      ensures forall j :: 0 <= j < i ==> key[j] != Some(k) && (key[j] == None ==> hashOf(k) != 0)
    {
      var h := hashOf(k);
      i := 0;
      while i < key.Length
        invariant 0 <= i <= key.Length
        invariant forall j :: 0 <= j < i ==> key[j] != Some(k) && (key[j] == None ==> h != 0)
      {
        assert key[..][i] == key[i] && hash[..][i] == hash[i];
        if h == hash[i] && (key[i] == None || key[i] == Some(k)) {
          return;
        }
        i := i + 1;
      }
    }

    /** The search of `dictionary_set` and `dictionary_unset`, which does skip holes. */
    method Find(k: string) returns (i: nat)
      requires Valid()
      ensures i <= key.Length && (i < key.Length ==> key[i] == Some(k))
      ensures i == key.Length <==> k !in contents
    {
      InSlots(key[..], val[..], hash[..], hashOf, contents, k);
      var h := hashOf(k);
      i := 0;
      while i < key.Length
        invariant 0 <= i <= key.Length && forall j :: 0 <= j < i ==> key[j] != Some(k)
      {
        if key[i] != None {
          if h == hash[i] && key[i] == Some(k) {
            return;
          }
        }
        i := i + 1;
      }
    }

    /** The three calls of `mem_double`. */
    method Double()
      requires Valid()
      modifies this`key, this`val, this`hash
      ensures Valid() && fresh(key) && fresh(val) && fresh(hash)
      ensures key.Length == 2 * old(key.Length) && n < key.Length
    {
      ghost var k, v, h := key[..], val[..], hash[..];
      val := MemDouble(val, None);
      key := MemDouble(key, None);
      hash := MemDouble(hash, 0);
      HolesAdded(k, v, h, hashOf, contents, key[..], val[..], hash[..]);
    }

    /** `dictionary_set`. */
    method Set(k: string, value: Option<string>)
      requires Valid()
      modifies this, key, val, hash
      ensures Valid() && contents == old(contents)[k := value]
      ensures (key == old(key) && val == old(val) && hash == old(hash)) || (fresh(key) && fresh(val) && fresh(hash))
      ensures key.Length == if old(k !in contents && n == key.Length) then 2 * old(key.Length) else old(key.Length)
    {
      if n > 0 {
        var i := Find(k);
        if i < key.Length {
          Replace(i, k, value);
          return;
        }
      } else {
        NothingToFind(key[..], val[..], hash[..], hashOf, contents);
      }
      if n == key.Length {
        Double();
      }
      var hole := FindHole();
      Store(hole, k, value);
    }

    /** The first free slot. */
    method FindHole() returns (i: nat)
      requires Valid() && n < key.Length
      ensures i < key.Length && key[i] == None && forall j :: 0 <= j < i ==> key[j] != None
    {
      HoleExists(key[..]);
      i := 0;
      while key[i] != None
        invariant 0 <= i < key.Length && forall j :: 0 <= j < i ==> key[j] != None
        decreases key.Length - i
      {
        i := i + 1;
      }
    }

    method Replace(i: nat, k: string, value: Option<string>)
      requires Valid() && i < key.Length && key[i] == Some(k)
      modifies this`contents, val
      ensures Valid() && contents == old(contents)[k := value]
    {
      ghost var vals := val[..];
      val[i] := value;
      assert val[..] == vals[i := value];
      contents := contents[k := value];
    }

    /** The key goes into the hole. */
    method Store(i: nat, k: string, value: Option<string>)
      requires Valid() && i < key.Length && key[i] == None && k !in contents
      modifies this`n, this`contents, key, val, hash
      ensures Valid() && contents == old(contents)[k := value]
    {
      ghost var keys, vals, hashes := key[..], val[..], hash[..];
      TakenSet(keys, i, Some(k));
      key[i] := Some(k);
      val[i] := value;
      hash[i] := hashOf(k);
      n := n + 1;
      contents := contents[k := value];
      assert key[..] == keys[i := Some(k)] && val[..] == vals[i := value] && hash[..] == hashes[i := hashOf(k)];
      Inserted(keys, vals, hashes, hashOf, old(contents), i, k, value);
    }

    /** `dictionary_unset`: nothing happens if the key is not there. */
    method Unset(k: string)
      requires Valid()
      modifies this`n, this`contents, key, val, hash
      ensures Valid() && contents == old(contents) - {k}
    {
      var i := Find(k);
      if i >= key.Length {
        return;
      }
      ghost var keys, vals, hashes := key[..], val[..], hash[..];
      TakenSet(keys, i, None);
      Removed(keys, vals, hashes, hashOf, contents, i, k);
      ClearSlot(i);
      n := n - 1;
      contents := contents - {k};
    }

    method ClearSlot(i: nat)
      requires key != val && i < key.Length == val.Length == hash.Length
      modifies key, val, hash
      ensures key[..] == old(key[..])[i := None] && val[..] == old(val[..])[i := None]
      ensures hash[..] == old(hash[..])[i := 0]
    {
      key[i] := None;
      if val[i] != None {
        val[i] := None;
      }
      hash[i] := 0;
    }
  }

  /** A new dictionary that is asked for a key of hash 0 compares that key with a null pointer. */
  method AskedForHashZero(hashOf: string -> nat, k: string, def: Option<string>) returns (r: Option<Option<string>>)
    requires hashOf(k) == 0
    ensures r == None
  {
    var d := new Dictionary(0, hashOf);
    r := d.Get(k, def);
    assert d.key[..][0] == None;
  }

  lemma {:induction false} NothingTaken(keys: seq<Option<string>>)
    requires forall i :: 0 <= i < |keys| ==> keys[i] == None
    ensures Taken(keys) == 0
  {
    TakenAppendHoles([], keys);
    assert [] + keys == keys;
  }

  /** Slots that are all holes are added: the map stays, and there is a free slot. */
  lemma HolesAdded(keys: seq<Option<string>>, vals: seq<Option<string>>, hashes: seq<nat>,
                   hash: string -> nat, m: map<string, Option<string>>,
                   keys': seq<Option<string>>, vals': seq<Option<string>>, hashes': seq<nat>)
    requires Represents(keys, vals, hashes, hash, m) && 0 < |keys| < |keys'|
    requires keys <= keys' && vals <= vals' && hashes <= hashes' && |keys'| == |vals'| == |hashes'|
    requires forall i :: |keys| <= i < |keys'| ==> keys'[i] == None && vals'[i] == None && hashes'[i] == 0
    ensures Represents(keys', vals', hashes', hash, m) && Taken(keys') == Taken(keys) < |keys'|
  {
    var holes := keys'[|keys|..];
    assert keys' == keys + holes;
    TakenAppendHoles(keys, holes);
    RepresentsMore(keys, vals, hashes, hash, m, keys', vals', hashes');
  }

  lemma RepresentsMore(keys: seq<Option<string>>, vals: seq<Option<string>>, hashes: seq<nat>,
                       hash: string -> nat, m: map<string, Option<string>>,
                       keys': seq<Option<string>>, vals': seq<Option<string>>, hashes': seq<nat>)
    requires Represents(keys, vals, hashes, hash, m) && keys <= keys' && vals <= vals' && hashes <= hashes'
    requires |keys'| == |vals'| == |hashes'|
    requires forall i :: |keys| <= i < |keys'| ==> keys'[i] == None && vals'[i] == None && hashes'[i] == 0
    ensures Represents(keys', vals', hashes', hash, m)
  {
    forall k | k in m ensures Some(k) in keys' {
      var i :| 0 <= i < |keys| && keys[i] == Some(k);
      assert keys'[i] == Some(k);
    }
  }

  lemma NothingToFind(keys: seq<Option<string>>, vals: seq<Option<string>>, hashes: seq<nat>,
                      hash: string -> nat, m: map<string, Option<string>>)
    requires Represents(keys, vals, hashes, hash, m) && Taken(keys) == 0
    ensures m == map[]
  {
    forall k | k in m ensures false {
      var i :| 0 <= i < |keys| && keys[i] == Some(k);
      TakenSet(keys, i, None);
    }
  }

  lemma Inserted(keys: seq<Option<string>>, vals: seq<Option<string>>, hashes: seq<nat>,
                 hash: string -> nat, m: map<string, Option<string>>, i: nat, k: string, value: Option<string>)
    requires Represents(keys, vals, hashes, hash, m) && i < |keys| && keys[i] == None && k !in m
    ensures Represents(keys[i := Some(k)], vals[i := value], hashes[i := hash(k)], hash, m[k := value])
  {
    var keys' := keys[i := Some(k)];
    forall x | x in m[k := value] ensures Some(x) in keys' {
      if x == k {
        assert keys'[i] == Some(k);
      } else {
        var j :| 0 <= j < |keys| && keys[j] == Some(x);
        assert keys'[j] == Some(x);
      }
    }
  }

  lemma Removed(keys: seq<Option<string>>, vals: seq<Option<string>>, hashes: seq<nat>,
                hash: string -> nat, m: map<string, Option<string>>, i: nat, k: string)
    requires Represents(keys, vals, hashes, hash, m) && i < |keys| && keys[i] == Some(k)
    ensures Represents(keys[i := None], vals[i := None], hashes[i := 0], hash, m - {k})
  {
    var keys' := keys[i := None];
    forall x | x in m - {k} ensures Some(x) in keys' {
      var j :| 0 <= j < |keys| && keys[j] == Some(x);
      assert keys'[j] == Some(x);
    }
  }

  // ---------- the hash function ----------

  function Mix(hash: bv32, c: bv32): bv32 {
    var a := hash + c;
    var b := a + (a << 10);
    b ^ (b >> 6)
  }

  function HashFrom(key: seq<bv32>, i: nat, hash: bv32): bv32
    requires i <= |key|
    decreases |key| - i
  {
    if i == |key| then hash else HashFrom(key, i + 1, Mix(hash, key[i]))
  }

  function Finish(hash: bv32): bv32 {
    var b := hash + (hash << 3);
    var c := b ^ (b >> 11);
    c + (c << 15)
  }

  /** `dictionary_hash` on the characters of a key. */
  function DictionaryHash(key: seq<bv32>): bv32 {
    Finish(HashFrom(key, 0, 0))
  }

  /** The hash of "a", that of the one-at-a-time function by Jenkins. */
  lemma HashOfA()
    ensures DictionaryHash([97]) == 0xca2e_9442
  {
    assert Mix(0, 97) == 0x18270;
    assert HashFrom([97], 1, 0x18270) == 0x18270;
  }

  /** The empty key has hash 0, so a dictionary with a hole in its first slot cannot be asked for it. */
  lemma EmptyKeyHasHashZero()
    ensures DictionaryHash([]) == 0
  {
    assert HashFrom([], 0, 0) == 0;
  }
}
