/** The in-memory source (engine/src/memory.rs): parsing a molecule tree
    straight out of a byte buffer, returning the tree and the number of
    bytes it took. */
module Memory {
  import opened Wrappers
  import opened Utils
  import Atoms
  import opened Molecule

  datatype MemoryError = UnexpectedEnd

  type MemoryMolecule = Molecule<MemoryError>

  /** What `try_from` returns: a panic, an error, or the tree and the number
      of bytes consumed. */
  type Parsed = Outcome<Result<(MemoryMolecule, nat), MemoryError>>

  /** What the child loop of a block yields: the children parsed before the
      loop ended and the bytes they took. */
  type ParsedChildren = Outcome<(seq<MemoryMolecule>, nat)>

  /** Where the first child of a block atom starts.  As written the cursor
      always starts at 8, also behind a 16-byte regular Block atom; the
      corrected parser starts behind the whole atom. */
  function ChildrenStart(a: Atoms.Atom, asWritten: bool): (start: nat)
    ensures start >= 8 && start % 8 == 0
    ensures !asWritten ==> start == Atoms.LengthInBytes(a)
  {
    if asWritten then 8 else Atoms.LengthInBytes(a)
  }

  /** `try_from` on the buffer, with the child cursor chosen by `asWritten`:
      any failure of the first atom is reported as `UnexpectedEnd`.  The
      contract only bounds the bytes consumed; what the tree looks like is
      stated by `ParseShape`. */
  function ParseWith(asWritten: bool, bytes: seq<Byte>): (r: Parsed)
    ensures r.Returns? && r.value.Success? ==> 8 <= r.value.value.1 <= |bytes|
    decreases |bytes|, 1
  {
    match Atoms.TryFrom(bytes)
    case Failure(_) => Returns(Failure(UnexpectedEnd))
    case Success(atom) =>
      Atoms.TryFromFits(bytes);
      ParseAtom(asWritten, bytes, atom)
  }

  /** The tree that starts with `atom`: a leaf for Bytes and FewBytes, the
      block and the children the loop parsed behind the atom for both block
      forms, a panic (`todo!`) for a Reference. */
  function ParseAtom(asWritten: bool, bytes: seq<Byte>, atom: Atoms.Atom): (r: Parsed)
    requires Atoms.LengthInBytes(atom) <= |bytes|
    ensures r.Returns? && r.value.Success? ==> 8 <= r.value.value.1 <= |bytes|
    decreases |bytes|, 0
  {
    match atom
    case Reference(_) => Panics
    case Bytes(payload) => Returns(Success((Bytes(payload), Atoms.LengthInBytes(atom))))
    case FewBytes(payload) => Returns(Success((Bytes(payload), Atoms.LengthInBytes(atom))))
    case Block(kind, count) => ParseBlock(asWritten, bytes, kind, count, ChildrenStart(atom, asWritten))
    case SmallBlock(kind, count) => ParseBlock(asWritten, bytes, kind, count, ChildrenStart(atom, asWritten))
  }

  /** A block whose children start at `start`: the children the loop
      parsed, and everything up to the end of the last of them consumed. */
  function ParseBlock(asWritten: bool, bytes: seq<Byte>, kind: Atoms.AtomKind, count: nat, start: nat): (r: Parsed)
    requires 8 <= start <= |bytes|
    ensures r.Returns? && r.value.Success? ==> start <= r.value.value.1 <= |bytes|
    decreases |bytes| - start, 3
  {
    match ParseChildren(asWritten, bytes[start..], count)
    case Panics => Panics
    case Returns((children, used)) =>
      var consumed: nat := start + used;
      Returns(Success((Block(kind, children), consumed)))
  }

  /** The child loop `for _ in 0..num_children`: each child is parsed from
      where the previous one ended; the first child that fails to parse ends
      the loop and is dropped together with every child after it. */
  function ParseChildren(asWritten: bool, bytes: seq<Byte>, count: nat): (r: ParsedChildren)
    ensures r.Returns? ==> r.value.1 <= |bytes|
    decreases |bytes|, 2
  {
    if count == 0 then Returns(([], 0))
    else
      match ParseWith(asWritten, bytes)
      case Panics => Panics
      case Returns(Failure(_)) => Returns(([], 0))
      case Returns(Success((child, consumed))) =>
        match ParseChildren(asWritten, bytes[consumed..], count - 1)
        case Panics => Panics
        case Returns((others, used)) =>
          var total: nat := consumed + used;
          Returns(([child] + others, total))
  }

  /** A parsed tree ends on a word boundary and has no `Error` node. */
  lemma {:induction false} ParseShape(asWritten: bool, bytes: seq<Byte>)
    ensures var r := ParseWith(asWritten, bytes);
      r.Returns? && r.value.Success? ==> r.value.value.1 % 8 == 0 && ErrorFree(r.value.value.0)
    decreases |bytes|, 1
  {
    match Atoms.TryFrom(bytes)
    case Failure(_) =>
    case Success(atom) =>
      Atoms.TryFromFits(bytes);
      ParseAtomShape(asWritten, bytes, atom);
  }

  /** What each kind of atom parses to: a Reference panics, a Bytes or
      FewBytes atom is a leaf holding its payload that consumes exactly the
      atom, and both block atoms give a block of their kind that ends on a
      word boundary. */
  lemma {:induction false} ParseAtomShape(asWritten: bool, bytes: seq<Byte>, atom: Atoms.Atom)
    requires Atoms.LengthInBytes(atom) <= |bytes|
    ensures var r := ParseAtom(asWritten, bytes, atom);
      && (atom.Reference? ==> r.Panics?)
      && (r.Returns? ==> r.value.Success?)
      && (r.Returns? ==> r.value.value.1 % 8 == 0 && ErrorFree(r.value.value.0))
      && ((atom.Block? || atom.SmallBlock?) && r.Returns? ==>
            r.value.value.0.Block? && r.value.value.0.kind == atom.kind)
      && ((atom.Bytes? || atom.FewBytes?) ==>
            r == Returns(Success((Bytes(atom.payload), Atoms.LengthInBytes(atom)))))
    decreases |bytes|, 0
  {
    match atom
    case Reference(_) =>
    case Bytes(payload) =>
    case FewBytes(payload) =>
    case Block(kind, count) =>
      ParseBlockShape(asWritten, bytes, kind, count, ChildrenStart(atom, asWritten));
    case SmallBlock(kind, count) =>
      ParseBlockShape(asWritten, bytes, kind, count, ChildrenStart(atom, asWritten));
  }

  lemma {:induction false} ParseBlockShape(asWritten: bool, bytes: seq<Byte>, kind: Atoms.AtomKind, count: nat, start: nat)
    requires 8 <= start <= |bytes| && start % 8 == 0
    ensures var r := ParseBlock(asWritten, bytes, kind, count, start);
      r.Returns? ==>
        && r.value.Success? && r.value.value.1 % 8 == 0
        && r.value.value.0.Block? && r.value.value.0.kind == kind && ErrorFree(r.value.value.0)
    decreases |bytes| - start, 3
  {
    ParseChildrenShape(asWritten, bytes[start..], count);
    var r := ParseChildren(asWritten, bytes[start..], count);
    if r.Returns? {
      MultiplesAdd(start, r.value.1, 8);
    }
  }

  /** The children left behind by the loop: no more than announced, none
      with an `Error` node, ending on a word boundary. */
  lemma {:induction false} ParseChildrenShape(asWritten: bool, bytes: seq<Byte>, count: nat)
    ensures var r := ParseChildren(asWritten, bytes, count);
      r.Returns? ==>
        && r.value.1 % 8 == 0 && |r.value.0| <= count
        && forall i :: 0 <= i < |r.value.0| ==> ErrorFree(r.value.0[i])
    decreases |bytes|, 2
  {
    if count > 0 {
      var first := ParseWith(asWritten, bytes);
      if first.Returns? && first.value.Success? {
        var (child, consumed) := first.value.value;
        ParseShape(asWritten, bytes);
        ParseChildrenShape(asWritten, bytes[consumed..], count - 1);
        var rest := ParseChildren(asWritten, bytes[consumed..], count - 1);
        if rest.Returns? {
          MultiplesAdd(consumed, rest.value.1, 8);
          ErrorFreeCons(child, rest.value.0);
        }
      }
    }
  }

  lemma ErrorFreeCons(child: MemoryMolecule, others: seq<MemoryMolecule>)
    requires ErrorFree(child)
    requires forall i :: 0 <= i < |others| ==> ErrorFree(others[i])
    ensures forall i :: 0 <= i < |[child] + others| ==> ErrorFree(([child] + others)[i])
  {
    var children := [child] + others;
    assert forall i :: 0 < i < |children| ==> children[i] == others[i - 1];
  }

  /** Once the first atom is decoded, the parse is determined by it. */
  lemma ParseOfAtom(asWritten: bool, bytes: seq<Byte>, atom: Atoms.Atom)
    requires Atoms.TryFrom(bytes) == Success(atom)
    ensures Atoms.LengthInBytes(atom) <= |bytes|
    ensures ParseWith(asWritten, bytes) == ParseAtom(asWritten, bytes, atom)
  {
    Atoms.TryFromFits(bytes);
  }

  /** The parse fails exactly when its first atom fails to decode: a
      failing child never fails its block. */
  lemma ParseFailsOnlyOnFirstAtom(asWritten: bool, bytes: seq<Byte>)
    ensures var r := ParseWith(asWritten, bytes);
      (r.Returns? && r.value.Failure?) <==> Atoms.TryFrom(bytes).Failure?
  {
    if Atoms.TryFrom(bytes).Success? {
      Atoms.TryFromFits(bytes);
      ParseAtomShape(asWritten, bytes, Atoms.TryFrom(bytes).value);
    }
  }

  /** One step of the child loop: a child that panics makes the block panic. */
  lemma ChildPanics(asWritten: bool, bytes: seq<Byte>, count: nat)
    requires count > 0 && ParseWith(asWritten, bytes).Panics?
    ensures ParseChildren(asWritten, bytes, count).Panics?
  {
  }

  /** One step of the child loop: a child that fails ends the loop. */
  lemma ChildFails(asWritten: bool, bytes: seq<Byte>, count: nat)
    requires count > 0 && ParseWith(asWritten, bytes).Returns? && ParseWith(asWritten, bytes).value.Failure?
    ensures ParseChildren(asWritten, bytes, count) == Returns(([], 0))
  {
  }

  /** One step of the child loop: a parsed child is kept and the loop goes
      on behind it. */
  lemma ChildParsed(asWritten: bool, bytes: seq<Byte>, count: nat)
    requires count > 0 && ParseWith(asWritten, bytes).Returns? && ParseWith(asWritten, bytes).value.Success?
    ensures var (child, consumed) := ParseWith(asWritten, bytes).value.value;
      consumed <= |bytes| &&
      ParseChildren(asWritten, bytes, count) ==
        Prepend([child], consumed, ParseChildren(asWritten, bytes[consumed..], count - 1))
  {
  }

  /** The same step at a cursor into the buffer. */
  lemma ChildParsedAt(bytes: seq<Byte>, cursor: nat, count: nat, child: MemoryMolecule, consumed: nat)
    requires cursor <= |bytes| && count > 0
    requires Parse(bytes[cursor..]) == Returns(Success((child, consumed)))
    ensures cursor + consumed <= |bytes|
    ensures ParseChildren(false, bytes[cursor..], count) ==
      Prepend([child], consumed, ParseChildren(false, bytes[cursor + consumed..], count - 1))
  {
    ChildParsed(false, bytes[cursor..], count);
    DropDrop(bytes, cursor, consumed);
  }

  /** A parsed child followed by the children parsed behind it. */
  lemma ChildThenOthers(bytes: seq<Byte>, count: nat, child: MemoryMolecule, consumed: nat,
                        others: seq<MemoryMolecule>, used: nat)
    requires count > 0 && consumed <= |bytes|
    requires Parse(bytes) == Returns(Success((child, consumed)))
    requires ParseChildren(false, bytes[consumed..], count - 1) == Returns((others, used))
    ensures ParseChildren(false, bytes, count) == Returns(([child] + others, consumed + used))
  {
  }

  /** The same step, on a buffer split into the child's bytes, the bytes of
      the children behind it and whatever follows them. */
  lemma ChildrenBehind(all: seq<Byte>, first: seq<Byte>, others: seq<Byte>, rest: seq<Byte>, count: nat,
                       child: MemoryMolecule, tail: seq<MemoryMolecule>)
    requires count > 0 && all == first + others
    requires Parse(first + (others + rest)) == Returns(Success((child, |first|)))
    requires ParseChildren(false, others + rest, count - 1) == Returns((tail, |others|))
    ensures ParseChildren(false, all + rest, count) == Returns(([child] + tail, |all|))
  {
    AppendAssoc(first, others, rest);
    DropAppend(first, others + rest);
    ChildThenOthers(first + (others + rest), count, child, |first|, tail, |others|);
  }

  /** The loop stops early only at a child that fails to parse: when fewer
      children than announced come back, the bytes right behind the last of
      them do not start with a decodable atom. */
  lemma {:induction false} ChildrenTruncated(asWritten: bool, bytes: seq<Byte>, count: nat)
    requires ParseChildren(asWritten, bytes, count).Returns?
    requires |ParseChildren(asWritten, bytes, count).value.0| < count
    ensures var used := ParseChildren(asWritten, bytes, count).value.1;
      Atoms.TryFrom(bytes[used..]).Failure?
    decreases |bytes|
  {
    var first := ParseWith(asWritten, bytes);
    if first.Returns? && first.value.Failure? {
      ChildFails(asWritten, bytes, count);
      AppendEmpty(bytes);
      ParseFailsOnlyOnFirstAtom(asWritten, bytes);
    } else {
      ChildParsed(asWritten, bytes, count);
      var (child, consumed) := first.value.value;
      ChildrenTruncated(asWritten, bytes[consumed..], count - 1);
      var used := ParseChildren(asWritten, bytes[consumed..], count - 1).value.1;
      DropDrop(bytes, consumed, used);
    }
  }

  /** The parser with the cursor corrected to start behind the block atom. */
  function Parse(bytes: seq<Byte>): Parsed {
    ParseWith(false, bytes)
  }

  /** The parser with its child cursor as written (children always start
      at offset 8), over the corrected atom decoder `Atoms.TryFrom`, in
      which `clone_from_slice` is taken to decode any width. */
  function ParseAsWritten(bytes: seq<Byte>): Parsed {
    ParseWith(true, bytes)
  }

  /** Glues the children already parsed in front of what the rest of the
      loop yields. */
  function Prepend(children: seq<MemoryMolecule>, used: nat, r: ParsedChildren): ParsedChildren {
    match r
    case Panics => Panics
    case Returns((others, more)) => Returns((children + others, used + more))
  }

  /** `MemoryMolecule::try_from`: decodes the first atom; a block atom then
      runs the child loop behind it. */
  method TryFrom(bytes: seq<Byte>) returns (r: Parsed)
    ensures r == Parse(bytes)
    decreases |bytes|, 1
  {
    var atom := Atoms.TryFrom(bytes);
    if atom.Failure? {
      return Returns(Failure(UnexpectedEnd));
    }
    var a := atom.value;
    ParseOfAtom(false, bytes, a);
    match a {
      case Reference(_) =>
        return Panics;
      case Bytes(payload) =>
        return Returns(Success((Bytes(payload), Atoms.LengthInBytes(a))));
      case FewBytes(payload) =>
        return Returns(Success((Bytes(payload), Atoms.LengthInBytes(a))));
      case Block(kind, count) =>
        r := ParseBlockLoop(bytes, kind, count, 16);
      case SmallBlock(kind, count) =>
        r := ParseBlockLoop(bytes, kind, count, 8);
    }
  }

  /** The arm of `try_from` for both block forms: the child loop behind the
      block atom, then the block with the children it collected. */
  method ParseBlockLoop(bytes: seq<Byte>, kind: Atoms.AtomKind, count: nat, start: nat) returns (r: Parsed)
    requires 8 <= start <= |bytes|
    ensures r == ParseBlock(false, bytes, kind, count, start)
    decreases |bytes| - start, 3
  {
    var children := ParseChildrenLoop(bytes, start, count);
    if children.Panics? {
      return Panics;
    }
    return Returns(Success((Block(kind, children.value.0), start + children.value.1)));
  }

  /** The child loop of `try_from`, with its `cursor` and its growing
      `children` vector; a failing child breaks out of the loop, `left`
      counts the turns of `for _ in 0..num_children` still to go. */
  method ParseChildrenLoop(bytes: seq<Byte>, start: nat, count: nat) returns (r: ParsedChildren)
    requires 8 <= start <= |bytes|
    ensures r == ParseChildren(false, bytes[start..], count)
    decreases |bytes| - start, 2
  {
    var children: seq<MemoryMolecule> := [];
    var cursor := start;
    var used := 0;
    var left := count;
    r := Returns(([], 0));
    while left > 0
      invariant start <= cursor <= |bytes| && cursor == start + used
      invariant ChildLoop(bytes, start, count, [], 0) == ChildLoop(bytes, cursor, left, children, used)
      decreases left
    {
      var child := TryFrom(bytes[cursor..]);
      if child.Panics? {
        r := Panics;
        break;
      }
      if child.value.Failure? {
        break;
      }
      var (data, consumed) := child.value.value;
      children := children + [data];
      used := used + consumed;
      cursor := cursor + consumed;
      left := left - 1;
    }
    if !r.Panics? {
      r := Returns((children, used));
    }
    ChildLoopIsParseChildren(bytes, start, count, [], 0);
    PrependNothing(ParseChildren(false, bytes[start..], count));
  }

  /** The child loop with the children collected so far and the bytes they
      took, `left` turns before its end. */
  function ChildLoop(bytes: seq<Byte>, cursor: nat, left: nat, children: seq<MemoryMolecule>, used: nat): ParsedChildren
    requires cursor <= |bytes|
    decreases left
  {
    if left == 0 then Returns((children, used))
    else
      match Parse(bytes[cursor..])
      case Panics => Panics
      case Returns(Failure(_)) => Returns((children, used))
      case Returns(Success((child, consumed))) =>
        ChildLoop(bytes, cursor + consumed, left - 1, children + [child], used + consumed)
  }

  /** The loop computes the recursive `ParseChildren` behind the children
      it has collected. */
  lemma {:induction false} ChildLoopIsParseChildren(bytes: seq<Byte>, cursor: nat, left: nat,
                                                    children: seq<MemoryMolecule>, used: nat)
    requires cursor <= |bytes|
    ensures ChildLoop(bytes, cursor, left, children, used) ==
      Prepend(children, used, ParseChildren(false, bytes[cursor..], left))
    decreases left, 1
  {
    if left == 0 {
      AppendEmpty(children);
    } else {
      var first := Parse(bytes[cursor..]);
      if first.Returns? && first.value.Success? {
        var (child, consumed) := first.value.value;
        ChildLoopParsed(bytes, cursor, left, children, used, child, consumed);
      } else if first.Returns? {
        ChildFails(false, bytes[cursor..], left);
        AppendEmpty(children);
      } else {
        ChildPanics(false, bytes[cursor..], left);
      }
    }
  }

  lemma {:induction false} ChildLoopParsed(bytes: seq<Byte>, cursor: nat, left: nat,
                                           children: seq<MemoryMolecule>, used: nat,
                                           child: MemoryMolecule, consumed: nat)
    requires cursor <= |bytes| && left > 0
    requires Parse(bytes[cursor..]) == Returns(Success((child, consumed)))
    ensures ChildLoop(bytes, cursor, left, children, used) ==
      Prepend(children, used, ParseChildren(false, bytes[cursor..], left))
    decreases left, 0
  {
    ChildLoopStep(bytes, cursor, left, children, used, child, consumed);
    ChildLoopIsParseChildren(bytes, cursor + consumed, left - 1, children + [child], used + consumed);
    ChildrenBehindCollected(bytes, cursor, left, children, used, child, consumed);
  }

  /** The children behind those collected so far, one child later. */
  lemma ChildrenBehindCollected(bytes: seq<Byte>, cursor: nat, left: nat, children: seq<MemoryMolecule>, used: nat,
                                child: MemoryMolecule, consumed: nat)
    requires cursor <= |bytes| && left > 0
    requires Parse(bytes[cursor..]) == Returns(Success((child, consumed)))
    ensures cursor + consumed <= |bytes|
    ensures Prepend(children, used, ParseChildren(false, bytes[cursor..], left)) ==
      Prepend(children + [child], used + consumed, ParseChildren(false, bytes[cursor + consumed..], left - 1))
  {
    ChildParsedAt(bytes, cursor, left, child, consumed);
    PrependTwice(children, used, child, consumed, ParseChildren(false, bytes[cursor + consumed..], left - 1));
  }

  /** One turn of the loop that keeps a child. */
  lemma ChildLoopStep(bytes: seq<Byte>, cursor: nat, left: nat, children: seq<MemoryMolecule>, used: nat,
                      child: MemoryMolecule, consumed: nat)
    requires cursor <= |bytes| && left > 0
    requires Parse(bytes[cursor..]) == Returns(Success((child, consumed)))
    ensures cursor + consumed <= |bytes|
    ensures ChildLoop(bytes, cursor, left, children, used) ==
      ChildLoop(bytes, cursor + consumed, left - 1, children + [child], used + consumed)
  {
  }

  lemma PrependNothing(r: ParsedChildren)
    ensures Prepend([], 0, r) == r
  {
    if r.Returns? {
      AppendEmpty(r.value.0);
    }
  }

  lemma PrependTwice(children: seq<MemoryMolecule>, used: nat, child: MemoryMolecule, consumed: nat, r: ParsedChildren)
    ensures Prepend(children, used, Prepend([child], consumed, r)) == Prepend(children + [child], used + consumed, r)
  {
    if r.Returns? {
      AppendAssoc(children, [child], r.value.0);
    }
  }

  /** `MemoryMolecule::from`: a failing first atom becomes an
      `Error(UnexpectedEnd)` tree, whatever the atom error was; otherwise the
      tree has no `Error` node. */
  function From(bytes: seq<Byte>): (r: Outcome<MemoryMolecule>)
    ensures r == Returns(Error(UnexpectedEnd)) <==> Atoms.TryFrom(bytes).Failure?
    ensures r.Returns? && Atoms.TryFrom(bytes).Success? ==> ErrorFree(r.value)
  {
    ParseFailsOnlyOnFirstAtom(false, bytes);
    ParseShape(false, bytes);
    match Parse(bytes)
    case Panics => Panics
    case Returns(Failure(e)) => Returns(Error(e))
    case Returns(Success((m, _))) => Returns(m)
  }

  // ---------------------------------------------------------------------
  // Round trip
  // ---------------------------------------------------------------------

  /** Parsing the bytes of an encodable tree, whatever follows them, gives
      back the tree and consumes exactly its bytes. */
  lemma {:induction false} RoundTrip<E>(m: Molecule<E>, rest: seq<Byte>)
    requires Encodable(m)
    ensures ErrorFree(m)
    ensures Parse(Encoding(m) + rest) == Returns(Success((Cast(m), |Encoding(m)|)))
    decreases m, 1
  {
    EncodableIsErrorFree(m);
    EncodingSplit(m);
    var a := NodeAtom(m);
    var head := Atoms.ToBytes(a);
    if m.Block? {
      var children := EncodingOfAll(m.children);
      assert Atoms.TryFrom(head + (children + rest)) == Success(a) by {
        Atoms.TryFromToBytes(a, children + rest);
      }
      assert ParseChildren(false, children + rest, |m.children|) == Returns((CastAll(m.children), |children|)) by {
        RoundTripAll(m.children, rest);
      }
      BlockBehind(Encoding(m), head, children, rest, a, CastAll(m.children));
    } else {
      assert Atoms.TryFrom(Encoding(m) + rest) == Success(a) by {
        Atoms.TryFromToBytes(a, rest);
      }
      LeafBehind(Encoding(m), rest, a);
    }
  }

  /** The parse of a buffer that starts with a block atom followed by the
      bytes of as many children as it announces. */
  lemma BlockBehind(all: seq<Byte>, head: seq<Byte>, tail: seq<Byte>, rest: seq<Byte>,
                    a: Atoms.Atom, children: seq<MemoryMolecule>)
    requires a.Block? || a.SmallBlock?
    requires all == head + tail && |head| == Atoms.LengthInBytes(a)
    requires Atoms.TryFrom(head + (tail + rest)) == Success(a)
    requires ParseChildren(false, tail + rest, if a.Block? then a.numChildren else a.count) == Returns((children, |tail|))
    ensures Parse(all + rest) == Returns(Success((Block(a.kind, children), |all|)))
  {
    AppendAssoc(head, tail, rest);
    DropAppend(head, tail + rest);
    BlockStep(head + (tail + rest), a, children, |tail|);
  }

  /** A block atom followed by the children the loop parses behind it. */
  lemma BlockStep(bytes: seq<Byte>, a: Atoms.Atom, children: seq<MemoryMolecule>, used: nat)
    requires a.Block? || a.SmallBlock?
    requires Atoms.TryFrom(bytes) == Success(a)
    requires Atoms.LengthInBytes(a) <= |bytes|
    requires ParseChildren(false, bytes[Atoms.LengthInBytes(a)..], if a.Block? then a.numChildren else a.count) ==
      Returns((children, used))
    ensures Parse(bytes) == Returns(Success((Block(a.kind, children), Atoms.LengthInBytes(a) + used)))
  {
    ParseOfAtom(false, bytes, a);
  }

  /** The parse of a buffer that starts with a Bytes or FewBytes atom. */
  lemma LeafBehind(all: seq<Byte>, rest: seq<Byte>, a: Atoms.Atom)
    requires a.Bytes? || a.FewBytes?
    requires |all| == Atoms.LengthInBytes(a)
    requires Atoms.TryFrom(all + rest) == Success(a)
    ensures Parse(all + rest) == Returns(Success((Bytes(a.payload), |all|)))
  {
    ParseOfAtom(false, all + rest, a);
  }

  lemma {:induction false} RoundTripAll<E>(ms: seq<Molecule<E>>, rest: seq<Byte>)
    requires forall i :: 0 <= i < |ms| ==> Encodable(ms[i])
    ensures forall i :: 0 <= i < |ms| ==> ErrorFree(ms[i])
    ensures ParseChildren(false, EncodingOfAll(ms) + rest, |ms|) ==
      Returns((CastAll(ms), |EncodingOfAll(ms)|))
    decreases ms, 1
  {
    EncodableAllAreErrorFree(ms);
    if ms == [] {
      assert EncodingOfAll(ms) == [];
    } else {
      RoundTripCons(ms, rest);
      CastAllCons<E, MemoryError>(ms);
    }
  }

  /** The step of the round trip of a child list: the first child is parsed
      back from its own bytes and the others from the bytes behind it. */
  lemma {:induction false} RoundTripCons<E>(ms: seq<Molecule<E>>, rest: seq<Byte>)
    requires ms != [] && forall i :: 0 <= i < |ms| ==> ErrorFree(ms[i]) && Encodable(ms[i])
    ensures ParseChildren(false, EncodingOfAll(ms) + rest, |ms|) ==
      Returns(([Cast(ms[0])] + CastAll(ms[1..]), |EncodingOfAll(ms)|))
    decreases ms, 0
  {
    EncodingOfAllCons(ms);
    var first := Encoding(ms[0]);
    var others := EncodingOfAll(ms[1..]);
    assert Parse(first + (others + rest)) == Returns(Success((Cast(ms[0]), |first|))) by {
      RoundTrip(ms[0], others + rest);
    }
    assert ParseChildren(false, others + rest, |ms| - 1) == Returns((CastAll(ms[1..]), |others|)) by {
      RoundTripAll(ms[1..], rest);
    }
    ChildrenBehind(EncodingOfAll(ms), first, others, rest, |ms|, Cast(ms[0]), CastAll(ms[1..]));
  }

  // ---------------------------------------------------------------------
  // The child cursor as written (see Findings)
  // ---------------------------------------------------------------------

  /** As written, the parser reads the first child of a block with a regular
      16-byte Block atom from the atom's own child-count field.  For fewer
      than 2^56 children its first byte is zero, the Block tag, so the first
      child can only come back as a block, and a tree whose first child is a
      Bytes leaf is not given back; the corrected parser gives it back. */
  lemma AsWrittenRegularBlockMisreadsFirstChild<E>(m: Molecule<E>)
    requires Encodable(m) && m.Block? && 256 <= |m.children| < Pow256(7)
    requires m.children[0].Bytes?
    ensures ErrorFree(m)
    ensures ParseAsWritten(Encoding(m)) != Returns(Success((Cast<E, MemoryError>(m), |Encoding(m)|)))
    ensures Parse(Encoding(m)) == Returns(Success((Cast<E, MemoryError>(m), |Encoding(m)|)))
  {
    EncodableIsErrorFree(m);
    assert Parse(Encoding(m)) == Returns(Success((Cast<E, MemoryError>(m), |Encoding(m)|))) by {
      RoundTrip(m, []);
      AppendEmpty(Encoding(m));
    }
    var n := |m.children|;
    var cast := Cast<E, MemoryError>(m);
    assert |cast.children| == n && cast.children[0].Bytes? by {
      CastAllIndex<E, MemoryError>(m.children, 0);
    }
    AsWrittenChildCursor(m);
    ChildrenAtBlockTag(true, Encoding(m)[8..], n);
  }

  /** The bytes of a tree with a regular Block atom, as the as-written
      parser reads them: the child loop starts at byte 8, which is zero. */
  lemma AsWrittenChildCursor<E>(m: Molecule<E>)
    requires Encodable(m) && m.Block? && 256 <= |m.children| < Pow256(7)
    ensures 16 <= |Encoding(m)| && Encoding(m)[8] == 0
    ensures ParseAsWritten(Encoding(m)) == ParseBlock(true, Encoding(m), m.kind, |m.children|, 8)
  {
    var n := |m.children|;
    var bytes := Encoding(m);
    var a := Atoms.Block(m.kind, n);
    var tail := EncodingOfAll(m.children);
    assert Atoms.Encodable(a) && bytes == Atoms.ToBytes(a) + tail by {
      EncodingSplit(m);
      assert NodeAtom(m) == a;
    }
    assert Atoms.TryFrom(bytes) == Success(a) by {
      Atoms.TryFromToBytes(a, tail);
    }
    ParseOfAtom(true, bytes, a);
    assert bytes[8] == 0 by {
      Atoms.BlockCountHighByte(a);
      IndexAppend(Atoms.ToBytes(a), tail, 8);
    }
  }

  /** Bytes that start with the Block tag can only give back a block as
      their first child. */
  lemma ChildrenAtBlockTag(asWritten: bool, bytes: seq<Byte>, count: nat)
    requires count > 0 && |bytes| > 0 && bytes[0] == Atoms.BlockTag
    ensures var cs := ParseChildren(asWritten, bytes, count);
      cs.Returns? ==> cs.value.0 == [] || cs.value.0[0].Block?
  {
    var first := ParseWith(asWritten, bytes);
    if first.Returns? && first.value.Failure? {
      ChildFails(asWritten, bytes, count);
    } else if first.Returns? {
      ChildParsed(asWritten, bytes, count);
      var b := Atoms.TryFrom(bytes).value;
      assert Atoms.Tag(b) == 0;
      ParseOfAtom(asWritten, bytes, b);
    } else {
      ChildPanics(asWritten, bytes, count);
    }
  }

  /** A block with 256 empty Bytes leaves, the smallest tree the encoder
      writes with a regular 16-byte Block atom. */
  function Wide(): Molecule<PureError> {
    Block(0, seq(256, _ => Bytes([])))
  }

  /** The smallest tree the as-written parser does not give back. */
  lemma AsWrittenWideBlockDoesNotRoundTrip()
    ensures Encodable(Wide())
    ensures ParseAsWritten(Encoding(Wide())) != Returns(Success((Cast<PureError, MemoryError>(Wide()), |Encoding(Wide())|)))
    ensures Parse(Encoding(Wide())) == Returns(Success((Cast<PureError, MemoryError>(Wide()), |Encoding(Wide())|)))
  {
    Pow256Values();
    assert Encodable(Wide());
    AsWrittenRegularBlockMisreadsFirstChild(Wide());
  }
}
