# Atom typing for a LAMMPS input script

This project models the atom-type assignment of `lmp-node` in Dafny. This is the step that prepares per-atom metadata for a LAMMPS data or input file. A structure is given as three parallel per-atom sequences, in atom order: atomic numbers, masses and chemical symbols. Each distinct atomic number gets a type id. Ids are 1, 2, 3, … in order of first appearance. The type keeps the mass and symbol of the first atom that has that atomic number. The result is held in an insertion-ordered dictionary `atom_map`: atomic number → (type id, mass, symbol). Three lists come from it:

- `atom_type`: the type id of every atom, in atom order;
- the per-type mass list, in type-id order;
- the per-type symbol list, in type-id order.

Everything is in `atom_typing.dfy`, module `AtomTyping`:

- The dictionary is the datatype `AtomMap`. Its `keys` field holds the insertion order that Python's `dict` keeps. Its `entries` field holds the map itself.
- `Scan(z, ms, ss, n)` specifies the dictionary after the first `n` atoms. A new atomic number gets id `|keys| + 1`.
- `BuildAtomMap` is the loop itself, with a dictionary and a counter `i`. It is proved equal to `Scan`, and `i` is proved to equal `|keys| + 1`.
- `AtomTypes`, `Values`, `TypeMasses` and `TypeSymbols` are the list comprehensions that follow the loop.
- The properties are stated against independent definitions:
  - `Seen(z, n)` is the set of atomic numbers of the first `n` atoms;
  - `FirstIndex(z, a)` is the index of the first atom whose atomic number is `a` (its existence is the lemma `FirstExists`).

  So the type id of atom `k` is one more than the number of distinct atomic numbers that appear before the first atom with `z[k]`.
- Masses and symbols are the type parameters `M` and `S`. The source only copies them.

Determinism: `BuildAtomMap` pins its result to a function of the input sequences, and `AssignTypesUnique` shows that the contract of `AssignTypes` admits exactly one result. So two runs on the same input give the same dictionary and the same lists. `IdsDependOnlyOnNumbers` adds that the key order and type ids do not depend on masses or symbols at all.

## Model

| member | source | states |
|---|---|---|
| `AtomTyping.BuildAtomMap` | ase_test.py:9-14 | the loop builds exactly the dictionary `Scan` specifies; the final counter is the number of distinct atomic numbers plus 1; the domain is exactly the set of atomic numbers in the input, so every atom's number is a key |
| `AtomTyping.ScanKeys` | ase_test.py:11-14 | the dictionary stays well formed: each key is listed once, and the listed keys are exactly its domain |
| `AtomTyping.ScanSeen` | ase_test.py:11-13 | after n atoms the keys are exactly the atomic numbers of those n atoms |
| `AtomTyping.ScanCount` | ase_test.py:11-14 | after n atoms there are as many keys as distinct atomic numbers among them |
| `AtomTyping.ScanIds` | ase_test.py:9-14 | the key inserted j-th (from 0) has type id j + 1, so the ids are exactly 1..number of keys, in insertion order |
| `AtomTyping.NewKeyFirstIndex` | ase_test.py:12-13 | when the test at line 12 finds atom n-1's number absent, atom n-1 is the first atom with that number |
| `AtomTyping.ScanEntries` | ase_test.py:12-13 | each entry holds id 1 + (distinct atomic numbers before its first atom), plus the mass and symbol of that first atom |
| `AtomTyping.ScanOrder` | ase_test.py:11-14 | keys are in strictly increasing order of their first appearance in the atom sequence |
| `AtomTyping.ScanStable` | ase_test.py:12-13 | later atoms only append keys; an existing key's entry (id, mass, symbol) never changes |
| `AtomTyping.IdsDependOnlyOnNumbers` | ase_test.py:9-16 | key order and type ids are the same for any masses and symbols: they are a function of the atomic-number sequence alone |
| `AtomTyping.AllAtomsTyped` | ase_test.py:11-16 | after the loop the dictionary is well formed and every atom's number is a key, so the lookup `atom_map[num]` on line 16 never fails |
| `AtomTyping.TypeOfAtom` | ase_test.py:13-16 | atom k's type id t lies in 1..number of types, key t-1 is atom k's atomic number, and the entry is that of the first atom with that number |
| `AtomTyping.AtomTypesFirstAppearance` | ase_test.py:16 | `atom_type` has one id per atom; an atom's id is 1 + the number of distinct atomic numbers before the first atom with its number; the first atom gets id 1 |
| `AtomTyping.AtomTypesIff` | ase_test.py:16 | two atoms get the same type id exactly when they have the same atomic number (both directions) |
| `AtomTyping.AtomTypesNewId` | ase_test.py:12-16 | an atom whose atomic number no earlier atom has gets the next unused id, 1 + the number of distinct atomic numbers before it |
| `AtomTyping.AtomTypes` | ase_test.py:16 | `atom_type` has one entry per atom, the same length as `atomic_numbers` |
| `AtomTyping.TypeMasses` | ase_test.py:18 | the printed mass list has one entry per key of `atom_map`, one per type |
| `AtomTyping.TypeSymbols` | ase_test.py:20 | the printed symbol list has one entry per key of `atom_map`, one per type |
| `AtomTyping.TypesUsed` | ase_test.py:16-18 | every type id 1..number of types is the type of some atom |
| `AtomTyping.ListsFromEntries` | ase_test.py:16-20 | for any well-formed dictionary with ids in insertion order and first-atom masses and symbols, the lists read off its values give atom k's type the mass and symbol of the first atom with atom k's number |
| `AtomTyping.TypeListsSpec` | ase_test.py:18-20 | the mass and symbol lists have one entry per distinct atomic number; entry t-1 belongs to type t and carries the first-seen mass and symbol |
| `AtomTyping.AssignTypes` | ase_test.py:9-20 | lines 9-20 end to end: `atom_type`, masses and symbols, characterised by first appearance, first-atom-wins, every type used, and the iff between equal types and equal atomic numbers, without reference to the loop |
| `AtomTyping.AssignTypesUnique` | ase_test.py:9-20 | any two results that meet the contract of `AssignTypes` are equal, so that contract determines `atom_type`, the masses and the symbols completely |
| `AtomTyping.SodiumChlorideExample` | ase_test.py:9-20 | atomic numbers [11, 17, 11, 17, 17] give keys [11, 17], types [1, 2, 1, 2, 2], and masses and symbols taken from atoms 0 and 1 |

## Left out

- Reading the structure: `ase.io.read` on a resolved path and the ASE getters (ase_test.py:5-8) are file I/O and calls into a foreign library. Their results are the inputs `z`, `ms` and `ss`. The precondition `Parallel` requires the three to have equal length, which the getters of one structure guarantee.
- Printing: the `print` calls (ase_test.py:17-20) are output only. Line 17 prints the dictionary, which is `BuildAtomMap`'s `atomMap`; lines 18 and 20 print the lists `TypeMasses` and `TypeSymbols`.
- The commented-out charge setting and LAMMPS data writing (ase_test.py:22-26) are dead code and a foreign writer.
- LMP_Node.py: the pipeline-node declarations (executable name, parameter file, template), the empty `run` and the graph writing. These are pipeline-framework plumbing and an unimplemented subprocess launch, with no behaviour to model.
- Numeric meaning of masses: the masses are floats in the source, but they are only copied, so they are an opaque type parameter and no floating-point arithmetic is modelled.
- Parameter and template merging, script rendering and process execution appear in neither ase_test.py nor LMP_Node.py (whose `run`, LMP_Node.py:25-28, is an empty placeholder). They are not part of this model.
