/** The typed block tree of engine/src/book.rs and its mapping onto atom
    trees: every known block is an atom Block with a fixed kind code, an
    Unknown block keeps its own kind, and a Text block carries its bytes in
    one Bytes child. */
module Book {
  import opened Wrappers
  import opened Utils

  /** The atom book.rs is written against: a Block with a numeric kind and
      child atoms, or a run of bytes. */
  datatype Atom = Block(kind: U64, children: seq<Atom>) | Bytes(payload: seq<Byte>)

  /** A block; a Text block holds the UTF-8 bytes of its string. */
  datatype Block =
    | Unknown(kind: U64, children: seq<Block>)
    | Empty
    | Created
    | Text(text: seq<Byte>)
    | Section(title: Block, body: Block)
    | DenseSequence(items: seq<Block>)
    | SplitSequence(items: seq<Block>)
    | Comment

  const EmptyKind: U64 := 0
  const CreatedKind: U64 := 1
  const SectionKind: U64 := 2
  const DenseSequenceKind: U64 := 3
  const SplitSequenceKind: U64 := 4
  const TextKind: U64 := 5
  const CommentKind: U64 := 6

  /** The kind code a known block is written with. */
  function KindOf(b: Block): U64
    requires !b.Unknown?
  {
    match b
    case Empty => EmptyKind
    case Created => CreatedKind
    case Section(_, _) => SectionKind
    case DenseSequence(_) => DenseSequenceKind
    case SplitSequence(_) => SplitSequenceKind
    case Text(_) => TextKind
    case Comment => CommentKind
  }

  /** `SerializeToAtom::serialize`. */
  function Serialize(b: Block): (a: Atom)
    ensures a.Block?
    ensures b.Unknown? ==> a.kind == b.kind && a.children == SerializeAll(b.children)
    ensures !b.Unknown? ==> a.kind == KindOf(b)
    ensures b.Text? ==> a.children == [Atom.Bytes(b.text)]
    decreases b
  {
    match b
    case Unknown(kind, children) => Atom.Block(kind, SerializeAll(children))
    case Empty => Atom.Block(EmptyKind, [])
    case Created => Atom.Block(CreatedKind, [])
    case Section(title, body) => Atom.Block(SectionKind, [Serialize(title), Serialize(body)])
    case DenseSequence(items) => Atom.Block(DenseSequenceKind, SerializeAll(items))
    case SplitSequence(items) => Atom.Block(SplitSequenceKind, SerializeAll(items))
    case Text(text) => Atom.Block(TextKind, [Atom.Bytes(text)])
    case Comment => Atom.Block(CommentKind, [])
  }

  /** `.map(|child| child.serialize()).collect()`: one atom per block, in
      order. */
  function SerializeAll(bs: seq<Block>): (r: seq<Atom>)
    ensures |r| == |bs|
    ensures forall i :: 0 <= i < |bs| ==> r[i] == Serialize(bs[i])
    decreases bs
  {
    if bs == [] then [] else [Serialize(bs[0])] + SerializeAll(bs[1..])
  }

  /** What `deserialize` yields: a block, `Err(())`, or a panic from one of
      its `unwrap`s. */
  type Deserialized = Outcome<Result<Block, ()>>

  /** `deserialize(...).unwrap()`: an `Err` becomes a panic. */
  function Unwrap(r: Deserialized): Outcome<Block> {
    match r
    case Returns(Success(b)) => Returns(b)
    case _ => Panics
  }

  /** `DeserializeToBlock::deserialize`.  Kind 2 takes its first two
      children, kind 5 its first child, kinds 0, 1 and 6 ignore their
      children, and every other kind is Unknown. */
  function Deserialize(a: Atom): (r: Deserialized)
    decreases a
  {
    match a
    case Bytes(_) => Returns(Failure(()))
    case Block(kind, children) =>
      if kind == EmptyKind then Returns(Success(Empty))
      else if kind == CreatedKind then Returns(Success(Created))
      else if kind == SectionKind then
        if |children| < 2 then Panics
        else
          match (Unwrap(Deserialize(children[0])), Unwrap(Deserialize(children[1])))
          case (Returns(title), Returns(body)) => Returns(Success(Section(title, body)))
          case _ => Panics
      else if kind == DenseSequenceKind then
        match DeserializeAll(children)
        case Returns(items) => Returns(Success(DenseSequence(items)))
        case Panics => Panics
      else if kind == SplitSequenceKind then
        match DeserializeAll(children)
        case Returns(items) => Returns(Success(SplitSequence(items)))
        case Panics => Panics
      else if kind == TextKind then
        if children == [] then Panics
        else if children[0].Bytes? then Returns(Success(Text(children[0].payload)))
        else Returns(Failure(()))
      else if kind == CommentKind then Returns(Success(Comment))
      else
        match DeserializeAll(children)
        case Returns(items) => Returns(Success(Unknown(kind, items)))
        case Panics => Panics
  }

  /** `.map(|child| child.deserialize().unwrap()).collect()`: panics as soon
      as one child does not deserialize. */
  function DeserializeAll(atoms: seq<Atom>): (r: Outcome<seq<Block>>)
    ensures r.Returns? ==> |r.value| == |atoms|
    decreases atoms
  {
    if atoms == [] then Returns([])
    else
      match (Unwrap(Deserialize(atoms[0])), DeserializeAll(atoms[1..]))
      case (Returns(first), Returns(others)) => Returns([first] + others)
      case _ => Panics
  }

  /** The children deserialize, in order, exactly when each one does. */
  lemma {:induction false} DeserializeAllEach(atoms: seq<Atom>)
    ensures DeserializeAll(atoms).Returns? <==>
      forall i :: 0 <= i < |atoms| ==> Deserialize(atoms[i]).Returns? && Deserialize(atoms[i]).value.Success?
    ensures DeserializeAll(atoms).Returns? ==>
      forall i :: 0 <= i < |atoms| ==> Deserialize(atoms[i]) == Returns(Success(DeserializeAll(atoms).value[i]))
    decreases atoms
  {
    if atoms != [] {
      DeserializeAllEach(atoms[1..]);
      assert forall i :: 0 < i < |atoms| ==> atoms[i] == atoms[1..][i - 1];
    }
  }

  /** Every Unknown block of the tree has a kind outside the codes 0..6,
      so that it does not read back as a known block. */
  predicate FreshKinds(b: Block)
    decreases b, 1
  {
    match b
    case Unknown(kind, children) => kind > CommentKind && AllFreshKinds(children)
    case Section(title, body) => FreshKinds(title) && FreshKinds(body)
    case DenseSequence(items) => AllFreshKinds(items)
    case SplitSequence(items) => AllFreshKinds(items)
    case _ => true
  }

  predicate AllFreshKinds(bs: seq<Block>)
    decreases bs, 0
  {
    bs == [] || (FreshKinds(bs[0]) && AllFreshKinds(bs[1..]))
  }

  /** Deserializing a serialized block gives the block back, for trees
      whose Unknown kinds are fresh. */
  lemma {:induction false} RoundTrip(b: Block)
    requires FreshKinds(b)
    ensures Deserialize(Serialize(b)) == Returns(Success(b))
    decreases b, 1
  {
    match b
    case Unknown(kind, children) =>
      RoundTripAll(children);
    case Section(title, body) =>
      RoundTrip(title);
      RoundTrip(body);
    case DenseSequence(items) =>
      RoundTripAll(items);
    case SplitSequence(items) =>
      RoundTripAll(items);
    case _ =>
  }

  lemma {:induction false} RoundTripAll(bs: seq<Block>)
    requires AllFreshKinds(bs)
    ensures DeserializeAll(SerializeAll(bs)) == Returns(bs)
    decreases bs, 0
  {
    if bs != [] {
      var atoms := SerializeAll(bs);
      assert atoms[0] == Serialize(bs[0]) && atoms[1..] == SerializeAll(bs[1..]);
      RoundTrip(bs[0]);
      RoundTripAll(bs[1..]);
      ConsHeadTail(bs);
    }
  }

  /** A known block serializes to an atom whose kind reads back as the
      same variant: the codes are distinct. */
  lemma KindsDistinct(b: Block, c: Block)
    requires !b.Unknown? && !c.Unknown?
    ensures KindOf(b) == KindOf(c) <==>
      (b.Empty? && c.Empty?) || (b.Created? && c.Created?) || (b.Section? && c.Section?) ||
      (b.DenseSequence? && c.DenseSequence?) || (b.SplitSequence? && c.SplitSequence?) ||
      (b.Text? && c.Text?) || (b.Comment? && c.Comment?)
  {
  }

  /** The failures of `deserialize`: a Bytes atom is `Err`, a kind-5 block
      whose first child is not Bytes is `Err`, and a kind-5 block without
      children or a kind-2 block with fewer than two children panics. */
  lemma DeserializeFailures(a: Atom)
    ensures a.Bytes? ==> Deserialize(a) == Returns(Failure(()))
    ensures a.Block? && a.kind == TextKind && a.children != [] && !a.children[0].Bytes? ==>
      Deserialize(a) == Returns(Failure(()))
    ensures a.Block? && a.kind == TextKind && a.children == [] ==> Deserialize(a).Panics?
    ensures a.Block? && a.kind == SectionKind && |a.children| < 2 ==> Deserialize(a).Panics?
  {
  }

  /** A kind outside 0..6 reads as Unknown with the same kind and the
      children deserialized in order, and panics if one of them fails. */
  lemma DeserializeUnknown(kind: U64, children: seq<Atom>)
    requires kind > CommentKind
    ensures DeserializeAll(children).Returns? ==>
      Deserialize(Atom.Block(kind, children)) == Returns(Success(Unknown(kind, DeserializeAll(children).value)))
    ensures DeserializeAll(children).Panics? ==> Deserialize(Atom.Block(kind, children)).Panics?
  {
  }

  /** An Unknown block that uses a known code does not survive: it reads
      back as the known block. */
  lemma UnknownWithKnownKind()
    ensures Deserialize(Serialize(Unknown(EmptyKind, []))) == Returns(Success(Empty))
  {
  }
}
