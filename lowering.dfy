/** Lowering a flat node to a kind and a list of data (engine/src/lowering.rs):
    each datum is the id of a child node or a run of bytes. */
module Lowering {
  import opened Wrappers
  import opened Utils
  import F = Flattening

  datatype Data = Block(id: F.Id) | Bytes(bytes: seq<Byte>)

  datatype LoweredBlock = LoweredBlock(kind: U64, data: seq<Data>)

  const EmptyKind: U64 := 0
  const TextKind: U64 := 1
  const SectionKind: U64 := 2
  const DenseSequenceKind: U64 := 3
  const SplitSequenceKind: U64 := 4

  /** `Vec<Id>::lower`: one Block datum per id, in order. */
  function LowerIds(ids: seq<F.Id>): (data: seq<Data>)
    ensures |data| == |ids|
    ensures forall i :: 0 <= i < |ids| ==> data[i] == Block(ids[i])
  {
    if ids == [] then [] else [Block(ids[0])] + LowerIds(ids[1..])
  }

  /** `FlatBlock::lower`.  An Unknown node keeps its kind and, having no
      children in its flat form, no data. */
  function Lower(f: F.FlatBlock): LoweredBlock {
    match f
    case Unknown(kind) => LoweredBlock(kind, [])
    case Empty => LoweredBlock(EmptyKind, [])
    case Text(text) => LoweredBlock(TextKind, [Bytes(text)])
    case Section(title, body) => LoweredBlock(SectionKind, [Block(title), Block(body)])
    case DenseSequence(ids) => LoweredBlock(DenseSequenceKind, LowerIds(ids))
    case SplitSequence(ids) => LoweredBlock(SplitSequenceKind, LowerIds(ids))
  }

  /** The ids of a list of data made only of Block data. */
  function BlockIds(data: seq<Data>): (ids: Option<seq<F.Id>>)
    ensures ids.Some? ==> |ids.value| == |data|
  {
    if data == [] then Some([])
    else if !data[0].Block? then None
    else
      match BlockIds(data[1..])
      case None => None
      case Some(rest) => Some([data[0].id] + rest)
  }

  /** Reading a lowered node back: the flat node it is the lowering of, if
      any.  Kinds 0 to 4 are the known variants; every other kind with no
      data is Unknown. */
  function Lift(l: LoweredBlock): Option<F.FlatBlock> {
    if l.kind == EmptyKind then
      if l.data == [] then Some(F.Empty) else None
    else if l.kind == TextKind then
      if |l.data| == 1 && l.data[0].Bytes? then Some(F.Text(l.data[0].bytes)) else None
    else if l.kind == SectionKind then
      if |l.data| == 2 && l.data[0].Block? && l.data[1].Block? then Some(F.Section(l.data[0].id, l.data[1].id))
      else None
    else if l.kind == DenseSequenceKind then
      match BlockIds(l.data)
      case None => None
      case Some(ids) => Some(F.DenseSequence(ids))
    else if l.kind == SplitSequenceKind then
      match BlockIds(l.data)
      case None => None
      case Some(ids) => Some(F.SplitSequence(ids))
    else if l.data == [] then Some(F.Unknown(l.kind))
    else None
  }

  lemma {:induction false} BlockIdsOfLowered(ids: seq<F.Id>)
    ensures BlockIds(LowerIds(ids)) == Some(ids)
  {
    if ids != [] {
      var data := LowerIds(ids);
      assert data[1..] == LowerIds(ids[1..]);
      BlockIdsOfLowered(ids[1..]);
      ConsHeadTail(ids);
    }
  }

  /** Lowering loses nothing: every flat node whose Unknown kind is not one
      of the codes 0 to 4 is read back from its lowering. */
  lemma LiftLower(f: F.FlatBlock)
    requires f.Unknown? ==> f.kind > SplitSequenceKind
    ensures Lift(Lower(f)) == Some(f)
  {
    match f
    case DenseSequence(ids) => BlockIdsOfLowered(ids);
    case SplitSequence(ids) => BlockIdsOfLowered(ids);
    case _ =>
  }

  /** The kind codes of the known variants are distinct, so the kind alone
      tells the variant of a node that is not Unknown. */
  lemma KindDeterminesVariant(f: F.FlatBlock, g: F.FlatBlock)
    requires !f.Unknown? && !g.Unknown?
    ensures Lower(f).kind == Lower(g).kind <==>
      (f.Empty? && g.Empty?) || (f.Text? && g.Text?) || (f.Section? && g.Section?) ||
      (f.DenseSequence? && g.DenseSequence?) || (f.SplitSequence? && g.SplitSequence?)
  {
  }

  /** The data of each variant: none for Empty, one run of bytes for Text,
      the title and body ids for Section, one id per item for the
      sequences. */
  lemma LoweredData(f: F.FlatBlock)
    ensures f.Empty? ==> Lower(f) == LoweredBlock(EmptyKind, [])
    ensures f.Text? ==> Lower(f) == LoweredBlock(TextKind, [Bytes(f.text)])
    ensures f.Section? ==> Lower(f) == LoweredBlock(SectionKind, [Block(f.title), Block(f.body)])
    ensures f.DenseSequence? || f.SplitSequence? ==>
      && Lower(f).kind == (if f.DenseSequence? then DenseSequenceKind else SplitSequenceKind)
      && |Lower(f).data| == |f.ids|
      && forall i :: 0 <= i < |f.ids| ==> Lower(f).data[i] == Block(f.ids[i])
    ensures f.Unknown? ==> Lower(f) == LoweredBlock(f.kind, [])
  {
  }
}
