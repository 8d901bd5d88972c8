/** The scheduler (engine/src/scheduler.rs): flattens a molecule into its
    atoms in pre-order, a Block atom for every molecule and a FewBytes or
    Bytes atom for every byte child. */
module Scheduler {
  import opened Utils
  import opened Wrappers
  import LegacyAtoms
  import opened Molecules

  /** `num_children: self.children.len() as u8`: the count kept modulo 256. */
  function CountByte(n: nat): (b: Byte)
    ensures n < 256 ==> b == n
    ensures (n - b) % 256 == 0
  {
    n % 256
  }

  /** The atom of a byte child: FewBytes below 256 bytes, Bytes from there on. */
  function BytesAtom(bytes: seq<Byte>): (a: LegacyAtoms.Atom)
    ensures a.Bytes? || a.FewBytes?
    ensures a.payload == bytes
    ensures a.FewBytes? <==> |bytes| < 256
  {
    if |bytes| < 256 then LegacyAtoms.FewBytes(bytes) else LegacyAtoms.Bytes(bytes)
  }

  /** The atoms `_schedule` pushes for a molecule. */
  function AtomsOf(m: Molecule): seq<LegacyAtoms.Atom>
    decreases m
  {
    [LegacyAtoms.Block(m.kind, CountByte(|m.children|))] + AtomsOfChildren(m.children)
  }

  function AtomsOfChildren(ds: seq<MoleculeData>): seq<LegacyAtoms.Atom>
    decreases ds
  {
    if ds == [] then [] else AtomsOfData(ds[0]) + AtomsOfChildren(ds[1..])
  }

  function AtomsOfData(d: MoleculeData): seq<LegacyAtoms.Atom>
    decreases d
  {
    match d
    case Block(m) => AtomsOf(m)
    case Bytes(bytes) => [BytesAtom(bytes)]
  }

  /** The children's atoms, one child after another. */
  lemma {:induction false} AtomsOfChildrenAppend(xs: seq<MoleculeData>, ys: seq<MoleculeData>)
    ensures AtomsOfChildren(xs + ys) == AtomsOfChildren(xs) + AtomsOfChildren(ys)
    decreases xs
  {
    if xs == [] {
      assert xs + ys == ys;
    } else {
      assert (xs + ys)[1..] == xs[1..] + ys;
      AtomsOfChildrenAppend(xs[1..], ys);
      AppendAssoc(AtomsOfData(xs[0]), AtomsOfChildren(xs[1..]), AtomsOfChildren(ys));
    }
  }

  lemma AtomsOfChildrenSnoc(ds: seq<MoleculeData>, i: nat)
    requires i < |ds|
    ensures AtomsOfChildren(ds[..i + 1]) == AtomsOfChildren(ds[..i]) + AtomsOfData(ds[i])
  {
    assert ds[..i + 1] == ds[..i] + [ds[i]];
    AtomsOfChildrenAppend(ds[..i], [ds[i]]);
    assert AtomsOfChildren([ds[i]]) == AtomsOfData(ds[i]) + AtomsOfChildren([]);
  }

  /** `schedule`: a fresh vector filled by `_schedule`. */
  method Schedule(m: Molecule) returns (atoms: seq<LegacyAtoms.Atom>)
    ensures atoms == AtomsOf(m)
  {
    atoms := ScheduleInto(m, []);
    AppendEmpty(AtomsOf(m));
  }

  /** `_schedule`: pushes the molecule's Block atom, then walks its children,
      recursing into blocks and pushing one atom per byte child. */
  method ScheduleInto(m: Molecule, output: seq<LegacyAtoms.Atom>) returns (result: seq<LegacyAtoms.Atom>)
    ensures result == output + AtomsOf(m)
    decreases m
  {
    result := output + [LegacyAtoms.Block(m.kind, CountByte(|m.children|))];
    for i := 0 to |m.children|
      invariant result == output + [LegacyAtoms.Block(m.kind, CountByte(|m.children|))] + AtomsOfChildren(m.children[..i])
    {
      AtomsOfChildrenSnoc(m.children, i);
      match m.children[i]
      case Block(child) =>
        result := ScheduleInto(child, result);
      case Bytes(bytes) =>
        if |bytes| < 256 {
          result := result + [LegacyAtoms.FewBytes(bytes)];
        } else {
          result := result + [LegacyAtoms.Bytes(bytes)];
        }
    }
    assert m.children[..|m.children|] == m.children;
  }

  /** The number of molecules in a tree, the root included. */
  function MoleculeCount(m: Molecule): nat
    decreases m
  {
    1 + MoleculeCountOfChildren(m.children)
  }

  function MoleculeCountOfChildren(ds: seq<MoleculeData>): nat
    decreases ds
  {
    if ds == [] then 0 else MoleculeCountOfData(ds[0]) + MoleculeCountOfChildren(ds[1..])
  }

  function MoleculeCountOfData(d: MoleculeData): nat
    decreases d
  {
    match d
    case Block(m) => MoleculeCount(m)
    case Bytes(_) => 0
  }

  /** The number of byte children anywhere in a tree. */
  function BytesCount(m: Molecule): nat
    decreases m
  {
    BytesCountOfChildren(m.children)
  }

  function BytesCountOfChildren(ds: seq<MoleculeData>): nat
    decreases ds
  {
    if ds == [] then 0 else BytesCountOfData(ds[0]) + BytesCountOfChildren(ds[1..])
  }

  function BytesCountOfData(d: MoleculeData): nat
    decreases d
  {
    match d
    case Block(m) => BytesCount(m)
    case Bytes(_) => 1
  }

  /** One atom per molecule and one per byte child. */
  lemma {:induction false} AtomsOfCount(m: Molecule)
    ensures |AtomsOf(m)| == MoleculeCount(m) + BytesCount(m)
    decreases m
  {
    AtomsOfChildrenCount(m.children);
  }

  lemma {:induction false} AtomsOfChildrenCount(ds: seq<MoleculeData>)
    ensures |AtomsOfChildren(ds)| == MoleculeCountOfChildren(ds) + BytesCountOfChildren(ds)
    decreases ds
  {
    if ds != [] {
      AtomsOfDataCount(ds[0]);
      AtomsOfChildrenCount(ds[1..]);
    }
  }

  lemma {:induction false} AtomsOfDataCount(d: MoleculeData)
    ensures |AtomsOfData(d)| == MoleculeCountOfData(d) + BytesCountOfData(d)
    decreases d
  {
    match d
    case Block(m) => AtomsOfCount(m);
    case Bytes(_) =>
  }

  /** Every molecule of the tree has fewer than 256 children, so that its
      count survives the cast to `u8`. */
  predicate Schedulable(m: Molecule)
    decreases m
  {
    && |m.children| < 256
    && forall i :: 0 <= i < |m.children| ==> SchedulableData(m.children[i])
  }

  predicate SchedulableData(d: MoleculeData)
    decreases d
  {
    d.Block? ==> Schedulable(d.molecule)
  }

  /** Decoding the atoms of a schedulable molecule, whatever follows them,
      gives back the molecule and consumes exactly its atoms. */
  lemma {:induction false} RoundTrip(m: Molecule, rest: seq<LegacyAtoms.Atom>)
    requires Schedulable(m)
    ensures DataFrom(AtomsOf(m) + rest) == Returns(Success((Block(m), |AtomsOf(m)|)))
    decreases m, 1
  {
    var atoms := AtomsOf(m) + rest;
    var tail := AtomsOfChildren(m.children) + rest;
    assert atoms == [LegacyAtoms.Block(m.kind, |m.children|)] + tail;
    assert atoms[1..] == tail;
    RoundTripChildren(m.children, rest);
  }

  lemma {:induction false} RoundTripChildren(ds: seq<MoleculeData>, rest: seq<LegacyAtoms.Atom>)
    requires forall i :: 0 <= i < |ds| ==> SchedulableData(ds[i])
    ensures ChildrenFrom(AtomsOfChildren(ds) + rest, |ds|) == Returns(Success((ds, |AtomsOfChildren(ds)|)))
    decreases ds, 0
  {
    if ds != [] {
      var first := AtomsOfData(ds[0]);
      var tail := AtomsOfChildren(ds[1..]) + rest;
      AppendAssoc(first, AtomsOfChildren(ds[1..]), rest);
      RoundTripData(ds[0], tail);
      DropAppend(first, tail);
      assert forall i :: 0 <= i < |ds[1..]| ==> SchedulableData(ds[1..][i]) by {
        forall i | 0 <= i < |ds[1..]| ensures SchedulableData(ds[1..][i]) {
          assert ds[1..][i] == ds[i + 1];
        }
      }
      RoundTripChildren(ds[1..], rest);
      ConsHeadTail(ds);
    }
  }

  lemma {:induction false} RoundTripData(d: MoleculeData, rest: seq<LegacyAtoms.Atom>)
    requires SchedulableData(d)
    ensures DataFrom(AtomsOfData(d) + rest) == Returns(Success((d, |AtomsOfData(d)|)))
    decreases d, 2
  {
    match d
    case Block(m) =>
      RoundTrip(m, rest);
    case Bytes(bytes) =>
      assert (AtomsOfData(d) + rest)[0] == BytesAtom(bytes);
  }

  /** `Molecule::from` of `schedule`: the molecule itself. */
  lemma ScheduleThenDecode(m: Molecule)
    requires Schedulable(m)
    ensures MoleculeFrom(AtomsOf(m)) == Returns(Success(m))
  {
    RoundTrip(m, []);
    AppendEmpty(AtomsOf(m));
  }

  /** The cast to `u8` as written: a molecule with 256 byte children is
      scheduled as a Block atom claiming none, and decodes as a childless
      molecule. */
  lemma AsWrittenCountWraps(kind: U64)
    ensures var m := Molecule(kind, seq(256, _ => Bytes([])));
      && AtomsOf(m)[0] == LegacyAtoms.Block(kind, 0)
      && MoleculeFrom(AtomsOf(m)) == Returns(Success(Molecule(kind, [])))
  {
    var m := Molecule(kind, seq(256, _ => Bytes([])));
    var atoms := AtomsOf(m);
    assert atoms[0] == LegacyAtoms.Block(kind, 0);
    assert ChildrenFrom(atoms[1..], 0) == Returns(Success(([], 0)));
  }
}
