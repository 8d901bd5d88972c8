/** The atoms the older molecule layer (engine/src/molecules.rs,
    engine/src/scheduler.rs) was written against: a Block atom holds a
    one-byte child count, and there is no SmallBlock form. */
module LegacyAtoms {
  import opened Utils

  datatype Atom =
    | Block(kind: U64, numChildren: Byte)
    | Bytes(payload: seq<Byte>)
    | FewBytes(payload: seq<Byte>)
    | Reference(offset: U64)
}

/** The older molecule layer (engine/src/molecules.rs): a block molecule with
    a kind and a list of children that are blocks or byte strings, decoded
    from a flat run of atoms.  Unlike the memory parser, any child that fails
    fails the whole decode. */
module Molecules {
  import opened Wrappers
  import opened Utils
  import LegacyAtoms

  datatype Molecule = Molecule(kind: U64, children: seq<MoleculeData>)

  datatype MoleculeData = Block(molecule: Molecule) | Bytes(bytes: seq<Byte>)

  datatype MoleculeError = UnexpectedEnd | FirstAtomShouldBeBlock

  /** `MoleculeData::block`. */
  function BlockOf(d: MoleculeData): (r: Option<Molecule>)
    ensures r.Some? <==> d.Block?
    ensures r.Some? ==> Block(r.value) == d
  {
    match d
    case Block(m) => Some(m)
    case Bytes(_) => None
  }

  /** `MoleculeData::bytes`. */
  function BytesOf(d: MoleculeData): (r: Option<seq<Byte>>)
    ensures r.Some? <==> d.Bytes?
    ensures r.Some? ==> Bytes(r.value) == d
  {
    match d
    case Block(_) => None
    case Bytes(b) => Some(b)
  }

  /** What `MoleculeData::from` returns: a panic, an error, or the data and
      the number of atoms it took. */
  type Decoded = Outcome<Result<(MoleculeData, nat), MoleculeError>>

  type DecodedChildren = Outcome<Result<(seq<MoleculeData>, nat), MoleculeError>>

  /** `MoleculeData::from`: a Block atom followed by its children, a leaf for
      Bytes and FewBytes, a panic (`todo!`) for a Reference. */
  function DataFrom(atoms: seq<LegacyAtoms.Atom>): (r: Decoded)
    ensures r.Returns? && r.value.Success? ==> 1 <= r.value.value.1 <= |atoms|
    decreases |atoms|, 0
  {
    if atoms == [] then Returns(Failure(UnexpectedEnd))
    else
      match atoms[0]
      case Block(kind, n) =>
        (match ChildrenFrom(atoms[1..], n)
         case Panics => Panics
         case Returns(Failure(e)) => Returns(Failure(e))
         case Returns(Success((children, used))) =>
           Returns(Success((Block(Molecule(kind, children)), 1 + used))))
      case Reference(_) => Panics
      case Bytes(payload) => Returns(Success((Bytes(payload), 1)))
      case FewBytes(payload) => Returns(Success((Bytes(payload), 1)))
  }

  /** The child loop `for _ in 0..num_children`: each child is decoded where
      the previous one ended, and the first error is the error of the whole
      loop (`?`). */
  function ChildrenFrom(atoms: seq<LegacyAtoms.Atom>, count: nat): (r: DecodedChildren)
    ensures r.Returns? && r.value.Success? ==> r.value.value.1 <= |atoms| && |r.value.value.0| == count
    decreases |atoms|, 1
  {
    if count == 0 then Returns(Success(([], 0)))
    else
      match DataFrom(atoms)
      case Panics => Panics
      case Returns(Failure(e)) => Returns(Failure(e))
      case Returns(Success((child, consumed))) =>
        match ChildrenFrom(atoms[consumed..], count - 1)
        case Panics => Panics
        case Returns(Failure(e)) => Returns(Failure(e))
        case Returns(Success((others, used))) => Returns(Success(([child] + others, consumed + used)))
  }

  /** `Molecule::from`: the data of the first atom, which must be a block. */
  function MoleculeFrom(atoms: seq<LegacyAtoms.Atom>): Outcome<Result<Molecule, MoleculeError>> {
    match DataFrom(atoms)
    case Panics => Panics
    case Returns(Failure(e)) => Returns(Failure(e))
    case Returns(Success((data, _))) =>
      match BlockOf(data)
      case None => Returns(Failure(FirstAtomShouldBeBlock))
      case Some(m) => Returns(Success(m))
  }

  /** The errors of the decoder: no atom is `UnexpectedEnd`, a leading
      Reference panics, a leading leaf consumes one atom and is no molecule,
      and a block consumes its own atom and everything its children took. */
  lemma DataFromCases(atoms: seq<LegacyAtoms.Atom>)
    ensures atoms == [] ==> DataFrom(atoms) == Returns(Failure(UnexpectedEnd))
    ensures atoms != [] && atoms[0].Reference? ==> DataFrom(atoms).Panics?
    ensures atoms != [] && (atoms[0].Bytes? || atoms[0].FewBytes?) ==>
      && DataFrom(atoms) == Returns(Success((Bytes(atoms[0].payload), 1)))
      && MoleculeFrom(atoms) == Returns(Failure(FirstAtomShouldBeBlock))
    ensures atoms != [] && atoms[0].Block? ==>
      match ChildrenFrom(atoms[1..], atoms[0].numChildren)
      case Returns(Success((children, used))) =>
        DataFrom(atoms) == Returns(Success((Block(Molecule(atoms[0].kind, children)), 1 + used)))
      case Returns(Failure(e)) => DataFrom(atoms) == Returns(Failure(e))
      case Panics => DataFrom(atoms).Panics?
  {
  }

  /** Fail-hard: a block fails or panics as soon as one of its children
      does, whatever follows that child. */
  lemma {:induction false} ChildFailureFailsAll(atoms: seq<LegacyAtoms.Atom>, count: nat)
    requires count > 0 && DataFrom(atoms).Returns? && DataFrom(atoms).value.Failure?
    ensures ChildrenFrom(atoms, count) == Returns(Failure(DataFrom(atoms).value.error))
  {
  }

  /** Glues the children already decoded in front of what the rest of the
      loop yields. */
  function Prepend(children: seq<MoleculeData>, used: nat, r: DecodedChildren): DecodedChildren {
    match r
    case Panics => Panics
    case Returns(Failure(e)) => Returns(Failure(e))
    case Returns(Success((others, more))) => Returns(Success((children + others, used + more)))
  }

  /** One turn of the loop that keeps a child, at a cursor into the atoms. */
  lemma ChildDecodedAt(atoms: seq<LegacyAtoms.Atom>, cursor: nat, count: nat, child: MoleculeData, consumed: nat)
    requires cursor <= |atoms| && count > 0
    requires DataFrom(atoms[cursor..]) == Returns(Success((child, consumed)))
    ensures cursor + consumed <= |atoms|
    ensures ChildrenFrom(atoms[cursor..], count) ==
      Prepend([child], consumed, ChildrenFrom(atoms[cursor + consumed..], count - 1))
  {
    DropDrop(atoms, cursor, consumed);
  }

  /** A child that panics or fails ends the loop with its outcome. */
  lemma ChildStops(atoms: seq<LegacyAtoms.Atom>, count: nat)
    requires count > 0 && (DataFrom(atoms).Panics? || DataFrom(atoms).value.Failure?)
    ensures ChildrenFrom(atoms, count) == if DataFrom(atoms).Panics? then Panics else Returns(Failure(DataFrom(atoms).value.error))
  {
  }

  lemma PrependTwice(children: seq<MoleculeData>, used: nat, child: MoleculeData, consumed: nat, r: DecodedChildren)
    ensures Prepend(children, used, Prepend([child], consumed, r)) == Prepend(children + [child], used + consumed, r)
  {
    if r.Returns? && r.value.Success? {
      AppendAssoc(children, [child], r.value.value.0);
    }
  }

  lemma PrependNothing(r: DecodedChildren)
    ensures Prepend([], 0, r) == r
  {
    if r.Returns? && r.value.Success? {
      AppendEmpty(r.value.value.0);
    }
  }

  /** The loop invariant of `DecodeChildren` carried over a child that
      decoded. */
  lemma ChildKept(atoms: seq<LegacyAtoms.Atom>, count: nat, children: seq<MoleculeData>, cursor: nat, i: nat,
                  child: MoleculeData, consumed: nat)
    requires cursor <= |atoms| && i < count
    requires ChildrenFrom(atoms, count) == Prepend(children, cursor, ChildrenFrom(atoms[cursor..], count - i))
    requires DataFrom(atoms[cursor..]) == Returns(Success((child, consumed)))
    ensures cursor + consumed <= |atoms|
    ensures ChildrenFrom(atoms, count) ==
      Prepend(children + [child], cursor + consumed, ChildrenFrom(atoms[cursor + consumed..], count - (i + 1)))
  {
    ChildDecodedAt(atoms, cursor, count - i, child, consumed);
    PrependTwice(children, cursor, child, consumed, ChildrenFrom(atoms[cursor + consumed..], count - i - 1));
  }

  /** `MoleculeData::from`: a leaf for a Bytes or FewBytes atom, a panic for
      a Reference, and for a Block atom the child loop behind it. */
  method DecodeData(atoms: seq<LegacyAtoms.Atom>) returns (r: Decoded)
    ensures r == DataFrom(atoms)
    decreases |atoms|, 0
  {
    if |atoms| == 0 {
      return Returns(Failure(UnexpectedEnd));
    }
    match atoms[0]
    case Reference(_) =>
      return Panics;
    case Bytes(payload) =>
      return Returns(Success((Bytes(payload), 1)));
    case FewBytes(payload) =>
      return Returns(Success((Bytes(payload), 1)));
    case Block(kind, n) =>
      var children := DecodeChildren(atoms[1..], n);
      match children
      case Panics =>
        return Panics;
      case Returns(Failure(e)) =>
        return Returns(Failure(e));
      case Returns(Success((decoded, used))) =>
        return Returns(Success((Block(Molecule(kind, decoded)), 1 + used)));
  }

  /** The loop of `MoleculeData::from` over `0..num_children`: a cursor into
      the atoms and the children pushed so far, leaving at the first child
      that fails. */
  method DecodeChildren(atoms: seq<LegacyAtoms.Atom>, count: nat) returns (r: DecodedChildren)
    ensures r == ChildrenFrom(atoms, count)
    decreases |atoms|, 1
  {
    var children: seq<MoleculeData> := [];
    var cursor := 0;
    var i := 0;
    PrependNothing(ChildrenFrom(atoms, count));
    while i < count
      invariant cursor <= |atoms| && i <= count
      invariant ChildrenFrom(atoms, count) == Prepend(children, cursor, ChildrenFrom(atoms[cursor..], count - i))
      decreases count - i
    {
      var child := DecodeData(atoms[cursor..]);
      if child.Panics? {
        ChildStops(atoms[cursor..], count - i);
        return Panics;
      }
      if child.value.Failure? {
        ChildStops(atoms[cursor..], count - i);
        return Returns(Failure(child.value.error));
      }
      var (data, consumed) := child.value.value;
      ChildKept(atoms, count, children, cursor, i, data, consumed);
      children := children + [data];
      cursor := cursor + consumed;
      i := i + 1;
    }
    AppendEmpty(children);
    return Returns(Success((children, cursor)));
  }
}
