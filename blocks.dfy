/** The block tree the flattening pipeline works on (engine/src/blocks.rs):
    a Text block holds the UTF-8 bytes of its string. */
module Blocks {
  import opened Utils

  datatype Block =
    | Unknown(kind: U64, children: seq<Block>)
    | Empty
    | Text(text: seq<Byte>)
    | Section(title: Block, body: Block)
    | DenseSequence(items: seq<Block>)
    | SplitSequence(items: seq<Block>)
}
