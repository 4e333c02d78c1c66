/**
  LM_GET_MAPPING_KEY of include/libmocha.h and the id_to_object_map keyed by it.

  The key is a macro, modelled bit for bit on the three operands already cast to uint32.  The
  table is a PRHashTable, foreign code, and appears as a map updated in place.
 */
module MappingKey {
  import opened Basics

  // The ReflectedObject type, the id of the containing layer, the id of the object.
  datatype Triple = Triple(kind: bv32, layer: bv32, id: bv32)

  function Key(t: Triple): bv32 {
    ((t.kind << 28) & 0xF000_0000) | ((t.layer << 14) & 0x0FFF_C000) | (t.id & 0x0000_3FFF)
  }

  function Unpacked(key: bv32): Triple {
    Triple(key >> 28, (key >> 14) & 0x3FFF, key & 0x3FFF)
  }

  // What is left of the operands: 4 bits, 14 bits, 14 bits.
  function Residue(t: Triple): Triple {
    Triple(t.kind & 0xF, t.layer & 0x3FFF, t.id & 0x3FFF)
  }

  predicate Fits(t: Triple) {
    t.kind < 0x10 && t.layer < 0x4000 && t.id < 0x4000
  }

  // ---------- The packing ----------

  lemma KindOfKey(t: Triple)
    ensures Key(t) >> 28 == t.kind & 0xF
  {
  }

  lemma LayerOfKey(t: Triple)
    ensures (Key(t) >> 14) & 0x3FFF == t.layer & 0x3FFF
  {
  }

  lemma IdOfKey(t: Triple)
    ensures Key(t) & 0x3FFF == t.id & 0x3FFF
  {
  }

  lemma UnpackKey(t: Triple)
    ensures Unpacked(Key(t)) == Residue(t)
  {
    KindOfKey(t);
    LayerOfKey(t);
    IdOfKey(t);
  }

  // Every 32-bit word is a key, of the triple unpacking gives.
  lemma KeyUnpacked(key: bv32)
    ensures Key(Unpacked(key)) == key && Fits(Unpacked(key))
  {
  }

  lemma FitsUnchanged(t: Triple)
    ensures Fits(t) <==> Residue(t) == t
  {
  }

  lemma KeyOfResidue(t: Triple)
    ensures Key(Residue(t)) == Key(t)
  {
    KeyUnpacked(Key(t));
    UnpackKey(t);
  }

  // Two triples share a key exactly when they leave the same residue.
  lemma SameKey(a: Triple, b: Triple)
    ensures Key(a) == Key(b) <==> Residue(a) == Residue(b)
  {
    UnpackKey(a);
    UnpackKey(b);
    KeyOfResidue(a);
    KeyOfResidue(b);
  }

  // On triples that fit, packing is a bijection onto 32-bit words.
  lemma PackingIsBijection(a: Triple, b: Triple, key: bv32)
    requires Fits(a) && Fits(b)
    ensures Key(a) == Key(b) <==> a == b
    ensures Key(a) == key <==> a == Unpacked(key)
  {
    SameKey(a, b);
    FitsUnchanged(a);
    FitsUnchanged(b);
    UnpackKey(a);
    KeyUnpacked(key);
  }

  // ---------- The table ----------

  datatype Op = Put(t: Triple, obj: nat) | Remove(t: Triple)

  function KeyedStep(m: map<bv32, nat>, op: Op): map<bv32, nat> {
    match op
    case Put(t, obj) => m[Key(t) := obj]
    case Remove(t) => m - {Key(t)}
  }

  function KeyedRun(ops: seq<Op>): map<bv32, nat> {
    if ops == [] then map[] else KeyedStep(KeyedRun(ops[..|ops| - 1]), ops[|ops| - 1])
  }

  // A table keyed by the whole triple.
  function TripleStep(m: map<Triple, nat>, op: Op): map<Triple, nat> {
    match op
    case Put(t, obj) => m[t := obj]
    case Remove(t) => m - {t}
  }

  function TripleRun(ops: seq<Op>): map<Triple, nat> {
    if ops == [] then map[] else TripleStep(TripleRun(ops[..|ops| - 1]), ops[|ops| - 1])
  }

  function Lookup<K>(m: map<K, nat>, k: K): Option<nat> {
    if k in m then Some(m[k]) else None
  }

  function OpResidue(op: Op): Op {
    op.(t := Residue(op.t))
  }

  function Residues(ops: seq<Op>): (r: seq<Op>)
    ensures |r| == |ops|
  {
    if ops == [] then [] else Residues(ops[..|ops| - 1]) + [OpResidue(ops[|ops| - 1])]
  }

  // For all ids the packed table behaves as one keyed by the residues.
  lemma {:induction false} TableOfResidues(ops: seq<Op>, t: Triple)
    ensures Lookup(KeyedRun(ops), Key(t)) == Lookup(TripleRun(Residues(ops)), Residue(t))
  {
    if ops != [] {
      var front, last := ops[..|ops| - 1], ops[|ops| - 1];
      TableOfResidues(front, t);
      SameKey(last.t, t);
      assert Residues(ops)[..|ops| - 1] == Residues(front);
      assert TripleRun(Residues(ops)) == TripleStep(TripleRun(Residues(front)), OpResidue(last));
    }
  }

  // For triples that fit it behaves as one keyed by the triple itself.
  lemma TableOfTriples(ops: seq<Op>, t: Triple)
    requires Fits(t) && forall i :: 0 <= i < |ops| ==> Fits(ops[i].t)
    ensures Lookup(KeyedRun(ops), Key(t)) == Lookup(TripleRun(ops), t)
  {
    TableOfResidues(ops, t);
    FitsUnchanged(t);
    ResiduesOfFitting(ops);
  }

  lemma {:induction false} ResiduesOfFitting(ops: seq<Op>)
    requires forall i :: 0 <= i < |ops| ==> Fits(ops[i].t)
    ensures Residues(ops) == ops
  {
    if ops != [] {
      ResiduesOfFitting(ops[..|ops| - 1]);
      FitsUnchanged(ops[|ops| - 1].t);
    }
  }

  // Over a set of triples the packed table can stand for one keyed by the triple, whatever is put
  // and removed, exactly when no two of them leave the same residue.
  lemma FaithfulExactly(used: set<Triple>)
    ensures (forall ops: seq<Op>, t | t in used && (forall i :: 0 <= i < |ops| ==> ops[i].t in used) ::
               Lookup(KeyedRun(ops), Key(t)) == Lookup(TripleRun(ops), t))
      <==> (forall a, b | a in used && b in used && Residue(a) == Residue(b) :: a == b)
  {
    if forall a, b | a in used && b in used && Residue(a) == Residue(b) :: a == b {
      forall ops: seq<Op>, t | t in used && (forall i :: 0 <= i < |ops| ==> ops[i].t in used)
        ensures Lookup(KeyedRun(ops), Key(t)) == Lookup(TripleRun(ops), t)
      {
        FaithfulOn(used, ops, t);
      }
    } else {
      var a, b :| a in used && b in used && Residue(a) == Residue(b) && a != b;
      var ops := [Put(a, 1)];
      SameKey(a, b);
      assert ops[..0] == [];
      assert Lookup(KeyedRun(ops), Key(b)) == Some(1) && Lookup(TripleRun(ops), b) == None;
    }
  }

  lemma {:induction false} FaithfulOn(used: set<Triple>, ops: seq<Op>, t: Triple)
    requires forall a, b | a in used && b in used && Residue(a) == Residue(b) :: a == b
    requires t in used && forall i :: 0 <= i < |ops| ==> ops[i].t in used
    ensures Lookup(KeyedRun(ops), Key(t)) == Lookup(TripleRun(ops), t)
  {
    if ops != [] {
      FaithfulOn(used, ops[..|ops| - 1], t);
      SameKey(ops[|ops| - 1].t, t);
    }
  }

  class IdToObjectMap {
    var table: map<bv32, nat>

    constructor ()
      ensures table == KeyedRun([])
    {
      table := map[];
    }

    method PutObject(t: Triple, obj: nat, ghost ops: seq<Op>)
      requires table == KeyedRun(ops)
      modifies this
      ensures table == KeyedRun(ops + [Put(t, obj)])
    {
      table := table[Key(t) := obj];
      assert (ops + [Put(t, obj)])[..|ops|] == ops;
    }

    method RemoveObject(t: Triple, ghost ops: seq<Op>)
      requires table == KeyedRun(ops)
      modifies this
      ensures table == KeyedRun(ops + [Remove(t)])
    {
      table := table - {Key(t)};
      assert (ops + [Remove(t)])[..|ops|] == ops;
    }

    // By the residues of the ids, whatever their size.
    method LookupObject(t: Triple, ghost ops: seq<Op>) returns (r: Option<nat>)
      requires table == KeyedRun(ops)
      ensures r == Lookup(TripleRun(Residues(ops)), Residue(t))
    {
      TableOfResidues(ops, t);
      r := Lookup(table, Key(t));
    }
  }
}
