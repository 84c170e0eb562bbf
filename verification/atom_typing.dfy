/**
 Atom-type assignment for a LAMMPS input script.

 Given the per-atom atomic numbers `z`, masses `ms` and chemical symbols `ss`
 of a structure (three parallel sequences in atom order), every distinct
 atomic number receives a type id, 1, 2, 3, ... in order of first
 appearance, together with the mass and symbol of the first atom that
 carries it. The dictionary that holds this (`atom_map`) is insertion
 ordered, so its list of values is in type-id order.

 Masses and symbols are only copied, never computed with, so they are the
 type parameters `M` and `S`.
 */
module AtomTyping {

  /** One value of `atom_map`: type id, first-seen mass, first-seen symbol. */
  datatype Entry<M, S> = Entry(id: int, mass: M, symbol: S)

  /** An insertion-ordered dictionary from atomic number to entry;
      `keys` lists the keys in the order they were inserted. */
  datatype AtomMap<M, S> = AtomMap(keys: seq<int>, entries: map<int, Entry<M, S>>)

  /** The three per-atom sequences are parallel. */
  predicate Parallel<M, S>(z: seq<int>, ms: seq<M>, ss: seq<S>) {
    |ms| == |z| && |ss| == |z|
  }

  predicate Distinct(s: seq<int>) {
    forall i, j :: 0 <= i < j < |s| ==> s[i] != s[j]
  }

  /** The dictionary is well formed: `keys` lists its domain, each key once. */
  ghost predicate WellFormed<M, S>(d: AtomMap<M, S>) {
    && Distinct(d.keys)
    && (forall j :: 0 <= j < |d.keys| ==> d.keys[j] in d.entries)
    && (forall a :: a in d.entries ==> a in d.keys)
  }

  // ---------------------------------------------------------------------
  // Reference notions on the atom sequence alone.
  // ---------------------------------------------------------------------

  /** The atomic numbers of the first `n` atoms. */
  function Seen(z: seq<int>, n: nat): (seen: set<int>)
    requires n <= |z|
  {
    if n == 0 then {} else Seen(z, n - 1) + {z[n - 1]}
  }

  /** Each of the first `n` atoms contributes its atomic number to `Seen`. */
  lemma {:induction false} SeenHas(z: seq<int>, n: nat)
    requires n <= |z|
    ensures forall k :: 0 <= k < n ==> z[k] in Seen(z, n)
  {
    if n > 0 {
      SeenHas(z, n - 1);
    }
  }

  /** Every member of `Seen` is the atomic number of one of the first `n` atoms. */
  lemma {:induction false} SeenWitness(z: seq<int>, n: nat, a: int) returns (k: nat)
    requires n <= |z| && a in Seen(z, n)
    ensures k < n && z[k] == a
  {
    if z[n - 1] == a {
      k := n - 1;
    } else {
      k := SeenWitness(z, n - 1, a);
    }
  }

  /** `k` is the index of the first atom whose atomic number is `a`. */
  ghost predicate IsFirstIndex(z: seq<int>, a: int, k: int) {
    0 <= k < |z| && z[k] == a && forall j :: 0 <= j < k ==> z[j] != a
  }

  /** An atomic number that occurs has a first occurrence. */
  lemma {:induction false} FirstExists(z: seq<int>, a: int)
    requires a in z
    ensures exists k :: IsFirstIndex(z, a, k)
  {
    if z[0] == a {
      assert IsFirstIndex(z, a, 0);
    } else {
      assert a in z[1..] by {
        var i :| 0 <= i < |z| && z[i] == a;
        assert z[1..][i - 1] == a;
      }
      FirstExists(z[1..], a);
      var k :| IsFirstIndex(z[1..], a, k);
      assert IsFirstIndex(z, a, k + 1) by {
        forall j | 0 <= j < k + 1 ensures z[j] != a {
          if j > 0 {
            assert z[j] == z[1..][j - 1];
          }
        }
      }
    }
  }

  /** Index of the first atom whose atomic number is `a`. */
  ghost function FirstIndex(z: seq<int>, a: int): (k: nat)
    requires a in z
    ensures k < |z| && z[k] == a
    ensures forall j :: 0 <= j < k ==> z[j] != a
  {
    FirstExists(z, a);
    var k :| IsFirstIndex(z, a, k); k
  }

  // ---------------------------------------------------------------------
  // The loop and its specification: the dictionary after the first n atoms.
  // A new atomic number gets id |seen| + 1 and the mass and symbol of the
  // atom where it is first met; a known one leaves the dictionary as it is.
  // ---------------------------------------------------------------------

  function Scan<M, S>(z: seq<int>, ms: seq<M>, ss: seq<S>, n: nat): (m: AtomMap<M, S>)
    requires Parallel(z, ms, ss) && n <= |z|
  {
    if n == 0 then AtomMap([], map[])
    else
      var d := Scan(z, ms, ss, n - 1);
      var a := z[n - 1];
      if a in d.entries then d
      else AtomMap(d.keys + [a], d.entries[a := Entry(|d.keys| + 1, ms[n - 1], ss[n - 1])])
  }

  /** The loop that builds `atom_map` with the counter `i`. */
  method BuildAtomMap<M, S>(z: seq<int>, ms: seq<M>, ss: seq<S>) returns (atomMap: AtomMap<M, S>, i: int)
    requires Parallel(z, ms, ss)
    ensures atomMap == Scan(z, ms, ss, |z|)
    ensures i == |atomMap.keys| + 1
    ensures i == |Seen(z, |z|)| + 1
    ensures atomMap.entries.Keys == Seen(z, |z|)
    ensures forall k :: 0 <= k < |z| ==> z[k] in atomMap.entries
  {
    i := 1;
    var keys: seq<int> := [];
    var entries: map<int, Entry<M, S>> := map[];
    for k := 0 to |z|
      invariant AtomMap(keys, entries) == Scan(z, ms, ss, k)
      invariant i == |keys| + 1
    {
      if z[k] !in entries {
        entries := entries[z[k] := Entry(i, ms[k], ss[k])];
        keys := keys + [z[k]];
        i := i + 1;
      }
    }
    atomMap := AtomMap(keys, entries);
    ScanSeen(z, ms, ss, |z|);
    ScanCount(z, ms, ss, |z|);
    SeenHas(z, |z|);
  }

  // ---------------------------------------------------------------------
  // What the dictionary holds.
  // ---------------------------------------------------------------------

  /** The key inserted j-th (from 0) has type id j + 1. */
  ghost predicate IdsInOrder<M, S>(d: AtomMap<M, S>) {
    forall j :: 0 <= j < |d.keys| ==> d.keys[j] in d.entries && d.entries[d.keys[j]].id == j + 1
  }

  /** Every entry holds id 1 + (number of distinct atomic numbers before
      its key's first atom), and that first atom's mass and symbol. */
  ghost predicate FirstAtomWins<M, S>(z: seq<int>, ms: seq<M>, ss: seq<S>, d: AtomMap<M, S>)
    requires Parallel(z, ms, ss)
  {
    forall a :: a in d.entries ==>
      a in z && d.entries[a] == Entry(|Seen(z, FirstIndex(z, a))| + 1, ms[FirstIndex(z, a)], ss[FirstIndex(z, a)])
  }

  /** Every entry holds the mass and symbol of its key's first atom. */
  ghost predicate FirstAtomValues<M, S>(z: seq<int>, ms: seq<M>, ss: seq<S>, d: AtomMap<M, S>)
    requires Parallel(z, ms, ss)
  {
    forall a :: a in d.entries ==>
      a in z && d.entries[a].mass == ms[FirstIndex(z, a)] && d.entries[a].symbol == ss[FirstIndex(z, a)]
  }

  /** The keys are listed in strictly increasing order of first appearance. */
  ghost predicate FirstAppearanceOrder<M, S>(z: seq<int>, d: AtomMap<M, S>) {
    forall i, j :: 0 <= i < j < |d.keys| ==>
      d.keys[i] in z && d.keys[j] in z && FirstIndex(z, d.keys[i]) < FirstIndex(z, d.keys[j])
  }

  /** The dictionary stays well formed. */
  lemma {:induction false} ScanKeys<M, S>(z: seq<int>, ms: seq<M>, ss: seq<S>, n: nat)
    requires Parallel(z, ms, ss) && n <= |z|
    ensures WellFormed(Scan(z, ms, ss, n))
  {
    if n > 0 {
      ScanKeys(z, ms, ss, n - 1);
      var d, a := Scan(z, ms, ss, n - 1), z[n - 1];
      if a !in d.entries {
        var d' := Scan(z, ms, ss, n);
        assert d'.keys == d.keys + [a];
        forall b | b in d'.entries ensures b in d'.keys {
          if b != a {
            assert b in d.keys;
          }
        }
      }
    }
  }

  /** The keys are exactly the atomic numbers of the atoms seen so far. */
  lemma {:induction false} ScanSeen<M, S>(z: seq<int>, ms: seq<M>, ss: seq<S>, n: nat)
    requires Parallel(z, ms, ss) && n <= |z|
    ensures Scan(z, ms, ss, n).entries.Keys == Seen(z, n)
  {
    if n > 0 {
      ScanSeen(z, ms, ss, n - 1);
    }
  }

  /** The number of keys is the number of distinct atomic numbers seen. */
  lemma {:induction false} ScanCount<M, S>(z: seq<int>, ms: seq<M>, ss: seq<S>, n: nat)
    requires Parallel(z, ms, ss) && n <= |z|
    ensures |Scan(z, ms, ss, n).keys| == |Seen(z, n)|
  {
    if n > 0 {
      ScanCount(z, ms, ss, n - 1);
      ScanSeen(z, ms, ss, n - 1);
    }
  }

  /** Type ids are 1..|keys|, in insertion order. */
  lemma {:induction false} ScanIds<M, S>(z: seq<int>, ms: seq<M>, ss: seq<S>, n: nat)
    requires Parallel(z, ms, ss) && n <= |z|
    ensures IdsInOrder(Scan(z, ms, ss, n))
  {
    if n > 0 {
      ScanIds(z, ms, ss, n - 1);
      var d, a := Scan(z, ms, ss, n - 1), z[n - 1];
      if a !in d.entries {
        ScanKeys(z, ms, ss, n - 1);
        var d' := Scan(z, ms, ss, n);
        forall j | 0 <= j < |d'.keys|
          ensures d'.keys[j] in d'.entries && d'.entries[d'.keys[j]].id == j + 1
        {
          if j < |d.keys| {
            assert d'.keys[j] == d.keys[j] && d.keys[j] in d.entries;
          }
        }
      }
    }
  }

  /** A key met for the first time at atom n - 1 has that atom as its first atom. */
  lemma NewKeyFirstIndex<M, S>(z: seq<int>, ms: seq<M>, ss: seq<S>, n: nat)
    requires Parallel(z, ms, ss) && 0 < n <= |z|
    requires z[n - 1] !in Scan(z, ms, ss, n - 1).entries
    ensures FirstIndex(z, z[n - 1]) == n - 1
  {
    ScanSeen(z, ms, ss, n - 1);
    SeenHas(z, n - 1);
  }

  /** Each type keeps the mass and symbol of the first atom of its number. */
  lemma {:induction false} ScanEntries<M, S>(z: seq<int>, ms: seq<M>, ss: seq<S>, n: nat)
    requires Parallel(z, ms, ss) && n <= |z|
    ensures FirstAtomWins(z, ms, ss, Scan(z, ms, ss, n))
  {
    if n > 0 {
      ScanEntries(z, ms, ss, n - 1);
      var d, a := Scan(z, ms, ss, n - 1), z[n - 1];
      if a !in d.entries {
        NewKeyFirstIndex(z, ms, ss, n);
        ScanCount(z, ms, ss, n - 1);
        var d' := Scan(z, ms, ss, n);
        forall b | b in d'.entries
          ensures b in z && d'.entries[b] == Entry(|Seen(z, FirstIndex(z, b))| + 1, ms[FirstIndex(z, b)], ss[FirstIndex(z, b)])
        {
          if b != a {
            assert b in d.entries;
          }
        }
      }
    }
  }

  /** A key present after the first n atoms first appears before atom n. */
  lemma OldKeyEarlier<M, S>(z: seq<int>, ms: seq<M>, ss: seq<S>, n: nat, b: int)
    requires Parallel(z, ms, ss) && n <= |z|
    requires b in Scan(z, ms, ss, n).entries
    ensures b in z && FirstIndex(z, b) < n
  {
    ScanSeen(z, ms, ss, n);
    var k := SeenWitness(z, n, b);
  }

  /** The keys are in order of first appearance. */
  lemma {:induction false} ScanOrder<M, S>(z: seq<int>, ms: seq<M>, ss: seq<S>, n: nat)
    requires Parallel(z, ms, ss) && n <= |z|
    ensures FirstAppearanceOrder(z, Scan(z, ms, ss, n))
  {
    if n > 0 {
      ScanOrder(z, ms, ss, n - 1);
      var d, a := Scan(z, ms, ss, n - 1), z[n - 1];
      if a !in d.entries {
        ScanKeys(z, ms, ss, n - 1);
        NewKeyFirstIndex(z, ms, ss, n);
        var d' := Scan(z, ms, ss, n);
        forall i, j | 0 <= i < j < |d'.keys|
          ensures d'.keys[i] in z && d'.keys[j] in z && FirstIndex(z, d'.keys[i]) < FirstIndex(z, d'.keys[j])
        {
          if j == |d.keys| {
            assert d'.keys[i] == d.keys[i] && d.keys[i] in d.entries;
            OldKeyEarlier(z, ms, ss, n - 1, d.keys[i]);
          }
        }
      }
    }
  }

  /** Once an atomic number is a key, later atoms never change its entry,
      and keys are only ever appended. */
  lemma {:induction false} ScanStable<M, S>(z: seq<int>, ms: seq<M>, ss: seq<S>, n: nat, n': nat)
    requires Parallel(z, ms, ss) && n <= n' <= |z|
    ensures Scan(z, ms, ss, n).keys <= Scan(z, ms, ss, n').keys
    ensures forall a :: a in Scan(z, ms, ss, n).entries ==>
      a in Scan(z, ms, ss, n').entries && Scan(z, ms, ss, n').entries[a] == Scan(z, ms, ss, n).entries[a]
  {
    if n < n' {
      ScanStable(z, ms, ss, n, n' - 1);
    }
  }

  /** The type ids and key order depend only on the atomic numbers: masses
      and symbols never influence them. */
  lemma {:induction false} IdsDependOnlyOnNumbers<M, S>(z: seq<int>, ms: seq<M>, ss: seq<S>,
                                                         ms': seq<M>, ss': seq<S>, n: nat)
    requires Parallel(z, ms, ss) && Parallel(z, ms', ss') && n <= |z|
    ensures Scan(z, ms, ss, n).keys == Scan(z, ms', ss', n).keys
    ensures Scan(z, ms, ss, n).entries.Keys == Scan(z, ms', ss', n).entries.Keys
    ensures forall a :: a in Scan(z, ms, ss, n).entries ==>
      Scan(z, ms, ss, n).entries[a].id == Scan(z, ms', ss', n).entries[a].id
  {
    if n > 0 {
      IdsDependOnlyOnNumbers(z, ms, ss, ms', ss', n - 1);
    }
  }

  // ---------------------------------------------------------------------
  // The lists derived from the finished dictionary.
  // ---------------------------------------------------------------------

  /** `atom_type`: the type id of every atom, in atom order. */
  function AtomTypes<M, S>(d: AtomMap<M, S>, z: seq<int>): (r: seq<int>)
    requires forall k :: 0 <= k < |z| ==> z[k] in d.entries
    ensures |r| == |z|
  {
    seq(|z|, k requires 0 <= k < |z| => d.entries[z[k]].id)
  }

  /** `list(atom_map.values())`: the entries in insertion order. */
  function Values<M, S>(d: AtomMap<M, S>): (vs: seq<Entry<M, S>>)
    requires WellFormed(d)
    ensures |vs| == |d.keys|
  {
    seq(|d.keys|, t requires 0 <= t < |d.keys| => d.entries[d.keys[t]])
  }

  /** The per-type mass list. */
  function TypeMasses<M, S>(d: AtomMap<M, S>): (masses: seq<M>)
    requires WellFormed(d)
    ensures |masses| == |d.keys|
  {
    var vs := Values(d);
    seq(|vs|, t requires 0 <= t < |vs| => vs[t].mass)
  }

  /** The per-type symbol list. */
  function TypeSymbols<M, S>(d: AtomMap<M, S>): (symbols: seq<S>)
    requires WellFormed(d)
    ensures |symbols| == |d.keys|
  {
    var vs := Values(d);
    seq(|vs|, t requires 0 <= t < |vs| => vs[t].symbol)
  }

  /** A per-atom type list where each atom's id is 1 + the number of
      distinct atomic numbers met before the first atom of its number. */
  ghost predicate TypesByFirstAppearance(z: seq<int>, r: seq<int>) {
    && |r| == |z|
    && forall k :: 0 <= k < |z| ==> r[k] == |Seen(z, FirstIndex(z, z[k]))| + 1
  }

  /** Two atoms share a type exactly when they share an atomic number. */
  ghost predicate SameTypeIffSameNumber(z: seq<int>, r: seq<int>)
    requires |r| == |z|
  {
    forall j, k :: 0 <= j < |z| && 0 <= k < |z| ==> (r[j] == r[k] <==> z[j] == z[k])
  }

  /** An atom whose number was not seen before gets the next new id. */
  ghost predicate NewNumberNewId(z: seq<int>, r: seq<int>)
    requires |r| == |z|
  {
    forall k :: 0 <= k < |z| && z[k] !in Seen(z, k) ==> r[k] == |Seen(z, k)| + 1
  }

  /** The per-type lists have one entry per distinct atomic number, and the
      entry of atom k's type is the mass (symbol) of the first atom with
      atom k's number. */
  ghost predicate FirstAtomLists<M, S>(z: seq<int>, ms: seq<M>, ss: seq<S>,
                                       r: seq<int>, masses: seq<M>, symbols: seq<S>)
    requires Parallel(z, ms, ss) && |r| == |z|
  {
    && |masses| == |Seen(z, |z|)| && |symbols| == |Seen(z, |z|)|
    && forall k :: 0 <= k < |z| ==>
         && 1 <= r[k] <= |masses|
         && masses[r[k] - 1] == ms[FirstIndex(z, z[k])]
         && symbols[r[k] - 1] == ss[FirstIndex(z, z[k])]
  }

  /** Every type id 1..count is the type of some atom. */
  ghost predicate EveryTypeUsed(r: seq<int>, count: nat) {
    forall t :: 1 <= t <= count ==> t in r
  }

  /** The type id of atom k names the key of its atomic number, and the
      entry is the one of the first atom with that number. */
  lemma TypeOfAtom<M, S>(z: seq<int>, ms: seq<M>, ss: seq<S>, k: nat)
    requires Parallel(z, ms, ss) && k < |z|
    ensures z[k] in Scan(z, ms, ss, |z|).entries
    ensures 1 <= Scan(z, ms, ss, |z|).entries[z[k]].id <= |Scan(z, ms, ss, |z|).keys|
    ensures Scan(z, ms, ss, |z|).keys[Scan(z, ms, ss, |z|).entries[z[k]].id - 1] == z[k]
    ensures Scan(z, ms, ss, |z|).entries[z[k]]
      == Entry(|Seen(z, FirstIndex(z, z[k]))| + 1, ms[FirstIndex(z, z[k])], ss[FirstIndex(z, z[k])])
  {
    var d := Scan(z, ms, ss, |z|);
    ScanSeen(z, ms, ss, |z|);
    SeenHas(z, |z|);
    ScanKeys(z, ms, ss, |z|);
    ScanIds(z, ms, ss, |z|);
    ScanEntries(z, ms, ss, |z|);
    var j :| 0 <= j < |d.keys| && d.keys[j] == z[k];
  }

  /** Every input atomic number is a key of the finished dictionary. */
  lemma AllAtomsTyped<M, S>(z: seq<int>, ms: seq<M>, ss: seq<S>)
    requires Parallel(z, ms, ss)
    ensures WellFormed(Scan(z, ms, ss, |z|))
    ensures forall k :: 0 <= k < |z| ==> z[k] in Scan(z, ms, ss, |z|).entries
  {
    ScanKeys(z, ms, ss, |z|);
    ScanSeen(z, ms, ss, |z|);
    SeenHas(z, |z|);
  }

  /** `atom_type` follows first appearance: atom k's id is 1 + the number of
      distinct atomic numbers met before the first atom with z[k], so the
      first atom gets type 1. */
  lemma AtomTypesFirstAppearance<M, S>(z: seq<int>, ms: seq<M>, ss: seq<S>)
    requires Parallel(z, ms, ss)
    ensures forall k :: 0 <= k < |z| ==> z[k] in Scan(z, ms, ss, |z|).entries
    ensures TypesByFirstAppearance(z, AtomTypes(Scan(z, ms, ss, |z|), z))
    ensures |z| > 0 ==> AtomTypes(Scan(z, ms, ss, |z|), z)[0] == 1
  {
    var d := Scan(z, ms, ss, |z|);
    AllAtomsTyped(z, ms, ss);
    var r := AtomTypes(d, z);
    forall k | 0 <= k < |z|
      ensures r[k] == |Seen(z, FirstIndex(z, z[k]))| + 1
    {
      TypeOfAtom(z, ms, ss, k);
    }
  }

  /** Two atoms share a type id exactly when they share an atomic number. */
  lemma AtomTypesIff<M, S>(z: seq<int>, ms: seq<M>, ss: seq<S>)
    requires Parallel(z, ms, ss)
    ensures forall k :: 0 <= k < |z| ==> z[k] in Scan(z, ms, ss, |z|).entries
    ensures SameTypeIffSameNumber(z, AtomTypes(Scan(z, ms, ss, |z|), z))
  {
    var d := Scan(z, ms, ss, |z|);
    AllAtomsTyped(z, ms, ss);
    var r := AtomTypes(d, z);
    forall j, k | 0 <= j < |z| && 0 <= k < |z|
      ensures r[j] == r[k] <==> z[j] == z[k]
    {
      TypeOfAtom(z, ms, ss, j);
      TypeOfAtom(z, ms, ss, k);
    }
  }

  /** An atom whose atomic number no earlier atom has gets the next new id. */
  lemma AtomTypesNewId<M, S>(z: seq<int>, ms: seq<M>, ss: seq<S>)
    requires Parallel(z, ms, ss)
    ensures forall k :: 0 <= k < |z| ==> z[k] in Scan(z, ms, ss, |z|).entries
    ensures NewNumberNewId(z, AtomTypes(Scan(z, ms, ss, |z|), z))
  {
    var d := Scan(z, ms, ss, |z|);
    AllAtomsTyped(z, ms, ss);
    var r := AtomTypes(d, z);
    forall k | 0 <= k < |z| && z[k] !in Seen(z, k)
      ensures r[k] == |Seen(z, k)| + 1
    {
      TypeOfAtom(z, ms, ss, k);
      SeenHas(z, k);
      assert FirstIndex(z, z[k]) == k;
    }
  }

  /** Every type id 1..|distinct atomic numbers| is the type of some atom. */
  lemma TypesUsed<M, S>(z: seq<int>, ms: seq<M>, ss: seq<S>)
    requires Parallel(z, ms, ss)
    ensures WellFormed(Scan(z, ms, ss, |z|))
    ensures forall k :: 0 <= k < |z| ==> z[k] in Scan(z, ms, ss, |z|).entries
    ensures EveryTypeUsed(AtomTypes(Scan(z, ms, ss, |z|), z), |TypeMasses(Scan(z, ms, ss, |z|))|)
  {
    var d := Scan(z, ms, ss, |z|);
    AllAtomsTyped(z, ms, ss);
    ScanSeen(z, ms, ss, |z|);
    ScanIds(z, ms, ss, |z|);
    var r := AtomTypes(d, z);
    forall t | 1 <= t <= |TypeMasses(d)| ensures t in r {
      var k := SeenWitness(z, |z|, d.keys[t - 1]);
      assert r[k] == t;
    }
  }

  /** For any well-formed dictionary whose ids and entries are those the
      loop assigns, the lists read off it give each atom's type the mass
      and symbol of the first atom with the same atomic number. */
  lemma ListsFromEntries<M, S>(z: seq<int>, ms: seq<M>, ss: seq<S>, d: AtomMap<M, S>)
    requires Parallel(z, ms, ss) && WellFormed(d) && IdsInOrder(d) && FirstAtomValues(z, ms, ss, d)
    requires forall k :: 0 <= k < |z| ==> z[k] in d.entries
    requires |d.keys| == |Seen(z, |z|)|
    ensures FirstAtomLists(z, ms, ss, AtomTypes(d, z), TypeMasses(d), TypeSymbols(d))
  {
    forall k | 0 <= k < |z|
      ensures 1 <= AtomTypes(d, z)[k] <= |TypeMasses(d)|
      ensures TypeMasses(d)[AtomTypes(d, z)[k] - 1] == ms[FirstIndex(z, z[k])]
      ensures TypeSymbols(d)[AtomTypes(d, z)[k] - 1] == ss[FirstIndex(z, z[k])]
    {
      ListAtAtom(z, ms, ss, d, k);
    }
  }

  /** Atom k's type indexes the lists at its key's position. */
  lemma ListAtAtom<M, S>(z: seq<int>, ms: seq<M>, ss: seq<S>, d: AtomMap<M, S>, k: nat)
    requires Parallel(z, ms, ss) && WellFormed(d) && IdsInOrder(d) && FirstAtomValues(z, ms, ss, d)
    requires forall k :: 0 <= k < |z| ==> z[k] in d.entries
    requires k < |z|
    ensures 1 <= AtomTypes(d, z)[k] <= |TypeMasses(d)|
    ensures TypeMasses(d)[AtomTypes(d, z)[k] - 1] == ms[FirstIndex(z, z[k])]
    ensures TypeSymbols(d)[AtomTypes(d, z)[k] - 1] == ss[FirstIndex(z, z[k])]
  {
    assert z[k] in d.entries;
    var j :| 0 <= j < |d.keys| && d.keys[j] == z[k];
    ListAtKey(z, ms, ss, d, j);
    assert AtomTypes(d, z)[k] == j + 1;
  }

  /** The j-th value of the dictionary is the entry of its j-th key. */
  lemma ListAtKey<M, S>(z: seq<int>, ms: seq<M>, ss: seq<S>, d: AtomMap<M, S>, j: nat)
    requires Parallel(z, ms, ss) && WellFormed(d) && IdsInOrder(d) && FirstAtomValues(z, ms, ss, d)
    requires j < |d.keys|
    ensures d.keys[j] in z && d.entries[d.keys[j]].id == j + 1
    ensures TypeMasses(d)[j] == ms[FirstIndex(z, d.keys[j])]
    ensures TypeSymbols(d)[j] == ss[FirstIndex(z, d.keys[j])]
  {
    var a := d.keys[j];
    assert a in d.entries;
    assert Values(d)[j] == d.entries[a];
  }

  /** The mass and symbol lists have one entry per distinct atomic number,
      entry t - 1 belongs to type t and is taken from the first atom of that
      type. */
  lemma TypeListsSpec<M, S>(z: seq<int>, ms: seq<M>, ss: seq<S>)
    requires Parallel(z, ms, ss)
    ensures WellFormed(Scan(z, ms, ss, |z|))
    ensures forall k :: 0 <= k < |z| ==> z[k] in Scan(z, ms, ss, |z|).entries
    ensures FirstAtomLists(z, ms, ss, AtomTypes(Scan(z, ms, ss, |z|), z),
                           TypeMasses(Scan(z, ms, ss, |z|)), TypeSymbols(Scan(z, ms, ss, |z|)))
  {
    AllAtomsTyped(z, ms, ss);
    ScanIds(z, ms, ss, |z|);
    ScanEntries(z, ms, ss, |z|);
    ScanCount(z, ms, ss, |z|);
    ListsFromEntries(z, ms, ss, Scan(z, ms, ss, |z|));
  }

  /** Lines 9-20 end to end: the per-atom type list and the per-type mass
      and symbol lists, characterised without reference to the loop. */
  method AssignTypes<M, S>(z: seq<int>, ms: seq<M>, ss: seq<S>)
    returns (atomType: seq<int>, masses: seq<M>, symbols: seq<S>)
    requires Parallel(z, ms, ss)
    ensures TypesByFirstAppearance(z, atomType)
    ensures |z| > 0 ==> atomType[0] == 1
    ensures SameTypeIffSameNumber(z, atomType)
    ensures NewNumberNewId(z, atomType)
    ensures FirstAtomLists(z, ms, ss, atomType, masses, symbols)
    ensures EveryTypeUsed(atomType, |masses|)
  {
    var atomMap, i := BuildAtomMap(z, ms, ss);
    AllAtomsTyped(z, ms, ss);
    atomType := AtomTypes(atomMap, z);
    masses := TypeMasses(atomMap);
    symbols := TypeSymbols(atomMap);
    AtomTypesFirstAppearance(z, ms, ss);
    AtomTypesIff(z, ms, ss);
    AtomTypesNewId(z, ms, ss);
    TypeListsSpec(z, ms, ss);
    TypesUsed(z, ms, ss);
  }

  /** First appearance fixes the per-atom type list. */
  lemma TypesUnique(z: seq<int>, r1: seq<int>, r2: seq<int>)
    requires TypesByFirstAppearance(z, r1) && TypesByFirstAppearance(z, r2)
    ensures r1 == r2
  {
    forall k | 0 <= k < |z| ensures r1[k] == r2[k] {
    }
  }

  /** Given the type list, first-atom-wins and every-type-used fix the mass
      and symbol lists. */
  lemma ListsUnique<M, S>(z: seq<int>, ms: seq<M>, ss: seq<S>, r: seq<int>,
                          m1: seq<M>, s1: seq<S>, m2: seq<M>, s2: seq<S>)
    requires Parallel(z, ms, ss) && |r| == |z|
    requires FirstAtomLists(z, ms, ss, r, m1, s1) && EveryTypeUsed(r, |m1|)
    requires FirstAtomLists(z, ms, ss, r, m2, s2)
    ensures m1 == m2 && s1 == s2
  {
    forall t | 0 <= t < |m1| ensures m1[t] == m2[t] && s1[t] == s2[t] {
      assert t + 1 in r;
      var k :| 0 <= k < |r| && r[k] == t + 1;
      assert m1[r[k] - 1] == m2[r[k] - 1] && s1[r[k] - 1] == s2[r[k] - 1];
    }
  }

  /** The contract of `AssignTypes` admits exactly one result: any two
      triples that meet it are equal. */
  lemma AssignTypesUnique<M, S>(z: seq<int>, ms: seq<M>, ss: seq<S>,
                                r1: seq<int>, m1: seq<M>, s1: seq<S>,
                                r2: seq<int>, m2: seq<M>, s2: seq<S>)
    requires Parallel(z, ms, ss)
    requires TypesByFirstAppearance(z, r1) && TypesByFirstAppearance(z, r2)
    requires FirstAtomLists(z, ms, ss, r1, m1, s1) && EveryTypeUsed(r1, |m1|)
    requires FirstAtomLists(z, ms, ss, r2, m2, s2)
    ensures r1 == r2 && m1 == m2 && s1 == s2
  {
    TypesUnique(z, r1, r2);
    ListsUnique(z, ms, ss, r1, m1, s1, m2, s2);
  }

  /** Sodium chloride, atoms Na Cl Na Cl Cl: types [1, 2, 1, 2, 2], with
      type 1 from atom 0 and type 2 from atom 1. */
  lemma SodiumChlorideExample<M, S>(ms: seq<M>, ss: seq<S>)
    requires |ms| == 5 && |ss| == 5
    ensures Scan([11, 17, 11, 17, 17], ms, ss, 5)
      == AtomMap([11, 17], map[11 := Entry(1, ms[0], ss[0]), 17 := Entry(2, ms[1], ss[1])])
    ensures AtomTypes(Scan([11, 17, 11, 17, 17], ms, ss, 5), [11, 17, 11, 17, 17]) == [1, 2, 1, 2, 2]
    ensures TypeMasses(Scan([11, 17, 11, 17, 17], ms, ss, 5)) == [ms[0], ms[1]]
    ensures TypeSymbols(Scan([11, 17, 11, 17, 17], ms, ss, 5)) == [ss[0], ss[1]]
  {
    var z := [11, 17, 11, 17, 17];
    var e := map[11 := Entry(1, ms[0], ss[0]), 17 := Entry(2, ms[1], ss[1])];
    assert Scan(z, ms, ss, 1) == AtomMap([11], map[11 := Entry(1, ms[0], ss[0])]);
    assert Scan(z, ms, ss, 2) == AtomMap([11, 17], e);
    assert Scan(z, ms, ss, 3) == AtomMap([11, 17], e);
    assert Scan(z, ms, ss, 4) == AtomMap([11, 17], e);
    assert Scan(z, ms, ss, 5) == AtomMap([11, 17], e);
    assert WellFormed(AtomMap([11, 17], e));
  }
}
