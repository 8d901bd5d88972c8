# SemDoc engine, modelled in Dafny

SemDoc is a binary document format. A document is an 8-byte header and
then a tree of *molecules*, flattened in pre-order into word-aligned
*atoms*:

- The header is the ASCII magic `SemDoc` and a big-endian `u16` version 0.
- A molecule is a `Bytes` leaf, a `Block` of a kind with children, or an
  `Error` of its source.
- Five atoms exist:
  - `Block`: 16 bytes, a 6-byte kind and an 8-byte child count.
  - `SmallBlock`: 8 bytes, a one-byte child count.
  - `Bytes`: a 7-byte length, then the payload padded to a word.
  - `FewBytes`: a one-byte length, with up to six payload bytes still in the first word.
  - `Reference`.

The memory parser reads a tree straight out of a byte buffer and returns
the tree and the number of bytes it took.

Around this core the repository holds older and parallel layers, modelled
here as well:

- an older molecule and atom layer, decoded fail-hard, with a scheduler
  that writes molecules as atoms;
- self-delimiting nested atoms, decoded from a byte iterator, whose Block
  kind is zero-terminated;
- a typed block tree mapped onto those atom trees with the kind codes 0
  to 6;
- a block tree flattened into an id-indexed list, then lowered to a kind
  and a list of data;
- two brace-markup front ends, scanned into tokens and parsed into text
  and blocks, and a formatter that lays such a tree out again with
  wrapped words.

The model has one Dafny module per source file:

- `Utils` (`utils.dfy`): rounding up, zero padding, big-endian integers.
- `Atoms` (`atoms.dfy`): the atom codec.
- `Molecule` (`molecule.dfy`): the tree and its flattening into atoms.
- `Memory` (`memory.dfy`): the parser.
- `Doc` (`doc.dfy`): the envelope.
- `LegacyAtoms` and `Molecules` (`molecules.dfy`): the older atoms and `MoleculeData::from` (engine/src/molecules.rs).
- `Scheduler` (`scheduler.dfy`): `schedule` (engine/src/scheduler.rs).
- `EngineAtoms` (`engine_atoms.dfy`): the nested atoms (engine/src/engine/atoms.rs).
- `Book` (`book.dfy`): `serialize` and `deserialize` (engine/src/book.rs).
- `Blocks`, `Flattening` and `Lowering` (`blocks.dfy`, `flatten.dfy`, `lowering.dfy`): the block tree, `flatten` and `unflatten`, and `lower`.
- `SsssScan` (`ssss_scan.dfy`): the token iterator (src/ssss/scan.rs).
- `MarkupScan` (`markup_scan.dfy`): `determine_token_kind` and `scan`. The function is the same code in src/ssss/parse.rs and parser/src/parse.rs, so it is modelled once.
- `SsssParse` and `MarkupParse` (`ssss_parse.dfy`, `markup_parse.dfy`): the two parsers. The shared parts (the token stream, `skip_while`, the block-name loop) are defined once, in `SsssParse`.
- `SsssFormat` (`ssss_format.dfy`): `wrap_words` and the formatter (src/ssss/format.rs).
- `Strings` (`strings.dfy`): the Rust string operations these use: `char::is_whitespace`, the UTF-8 length `str::len`, `trim` and `replace`.
- `Wrappers` (`wrappers.dfy`): `Option`, `Result` and `Outcome`.

A Rust panic (`todo!`, `assert!`, an out-of-range slice) is the value
`Outcome.Panics`. A recoverable error is a `Result.Failure`. Machine
integers are `nat`s with the bounds the code relies on (`U64`, `U16`,
`Byte`).

Where the code and the design documents differ, the model follows the
code:

- A failing child cuts its block's child list short, and no `Error` node is
  added (engine/src/memory.rs:44).
- A FewBytes atom's padding is never checked (engine/src/atoms.rs:131).
- The tokens of `scan` carry character indices, except the end of the last
  token, which is the byte length of the source (src/ssss/parse.rs:51,74).
  The comment on `Token::position` speaks of bytes.
- The scheduler casts the child count to `u8` and wraps at 256
  (engine/src/scheduler.rs:21). The round trip is proved below 256, and
  `Scheduler.AsWrittenCountWraps` shows the wrap.

Every defect listed under Findings is modelled both ways. One member
exhibits the code as written. The corrected definition is the one the rest
of the model uses. This covers the atom decoder, the memory parser's child
cursor, and the formatter: `SsssFormat.Format` and the members it is built
from escape the braces of an inlined block's text (`SsssFormat.InlineText`),
where the source puts that text in unescaped
(`SsssFormat.InlineTextAsWritten`).

## Model

| member | source | states |
|---|---|---|
| Utils.RoundUpToMultipleOf | engine/src/utils.rs:29-32 | the result is a multiple of `number`, at least `self` and below `self + number`; a value that already is a multiple, 0 included, comes back unchanged |
| Utils.RoundUpIsLeast | engine/src/utils.rs:30-32 | no multiple of `number` that is at least `self` lies below the result, so it is the least such multiple |
| Utils.Aligned | engine/src/utils.rs:5-11 | padding leaves a length that is a multiple of 8, appends fewer than 8 bytes, keeps the original bytes as a prefix and appends only zeros |
| Utils.AlignedIdempotent | engine/src/utils.rs:5-11 | an aligned buffer is left unchanged, so aligning twice is aligning once |
| Utils.AlignedUnique | engine/src/utils.rs:5-11 | any zero padding of fewer than 8 bytes that ends on a word boundary is the one `align` produces |
| Utils.ByteVec.Align | engine/src/utils.rs:5-11 | the push loop leaves the vector equal to the padded old contents |
| Utils.FromToBigEndian | engine/src/utils.rs:18-23 | decoding a big-endian field gives back the value encoded |
| Utils.ToFromBigEndian | engine/src/utils.rs:18-23 | encoding the decoded value gives back the field |
| Utils.CloneFromSliceAsWritten | engine/src/utils.rs:18-23 | returns exactly when the slice has 8 bytes, and then the value whose `to_be_bytes` is the slice |
| Utils.CloneFromSliceInvertsToBeBytes | engine/src/utils.rs:18-23 | on the 8 bytes of `to_be_bytes(v)` it returns `v` |
| Atoms.LengthInBytes | engine/src/atoms.rs:31-43 | every atom occupies a positive multiple of 8 bytes |
| Atoms.PaddedLengths | engine/src/atoms.rs:37-40 | a Bytes atom occupies `round_up(8 + len)` bytes and a FewBytes atom `round_up(2 + len)`; a FewBytes atom fits in one word exactly when its payload has at most 6 bytes, and 7 bytes take two words |
| Atoms.ToBytes | engine/src/atoms.rs:45-95 | an encoding is as long as `length_in_bytes` says and opens with the variant's tag |
| Atoms.ToBytesLayout | engine/src/atoms.rs:49-93 | where each field sits: the kind in bytes 2..8 of both block forms, the compact count in byte 1, the full count in bytes 8..16, the length or offset in bytes 1..8, the payload followed only by zero bytes |
| Atoms.TryFrom | engine/src/atoms.rs:97-137 | the corrected `try_from`: every field decoded at its own width, the Block count read from bytes 8..16, and both payload atoms checked against their padded length before any slice; what it promises is stated by `Atoms.TryFromTag`, `Atoms.TryFromFits`, `Atoms.TryFromPayloadErrors`, `Atoms.TryFromToBytes` and `Atoms.ToBytesTryFrom` |
| Atoms.TryFromTag | engine/src/atoms.rs:97-102 | fewer than 8 bytes is `UnexpectedEnd`, a tag above 4 is `UnknownType(tag)`, and a decoded atom has the tag it was read with |
| Atoms.TryFromFits | engine/src/atoms.rs:97-137 | a decoded atom, padding included, lies inside the buffer it was read from |
| Atoms.TryFromPayloadErrors | engine/src/atoms.rs:111-133 | a Bytes atom is `UnexpectedEnd` exactly when its padded length runs past the buffer and `AlignmentNotZero` exactly when it fits but a padding byte is non-zero; a FewBytes atom never reports `AlignmentNotZero` and fails exactly when it runs past the buffer |
| Atoms.TryFromToBytes | engine/src/atoms.rs:97-137 | decoding the encoding of any atom within the encoder's bounds, whatever follows it, gives the atom back |
| Atoms.ToBytesTryFrom | engine/src/atoms.rs:45-137 | a decoded atom is within the encoder's bounds, and re-encoding it reproduces the bytes it was read from, except bytes the decoder ignores (byte 1 of a Block, FewBytes padding) |
| Atoms.ToBytesAllAppend | engine/src/doc.rs:27-31 | the bytes of two runs of atoms are the bytes of the first run followed by those of the second |
| Atoms.TryFromAsWritten | engine/src/atoms.rs:97-137 | the decoder as written, with `clone_from_slice` taken to decode any width (Findings row engine/src/utils.rs:19): a decoded atom has the tag it was read with |
| Atoms.AsWrittenKindFieldPanics | engine/src/atoms.rs:107-110 | the 6-byte kind slice of every SmallBlock decode panics in `clone_from_slice` |
| Atoms.AsWrittenBlockCount | engine/src/atoms.rs:103-106 | as written, with `clone_from_slice` taken to decode any width (Findings row engine/src/utils.rs:19), a Block round-trips when its count is below 2^56, and a count of 2^56 comes back as 0 |
| Atoms.AsWrittenShortBlockPanics | engine/src/atoms.rs:103-106 | as written, an 8-byte buffer opening with the Block tag panics; the corrected decoder reports `UnexpectedEnd` |
| Atoms.AsWrittenCutPaddingPanics | engine/src/atoms.rs:111-124 | as written, a Bytes atom whose padding is cut off panics; the corrected decoder reports `UnexpectedEnd` |
| Atoms.AsWrittenFewBytesOverrun | engine/src/atoms.rs:125-133 | as written, a 7-byte FewBytes atom is accepted from 9 bytes although it occupies 16; the corrected decoder reports `UnexpectedEnd` |
| Molecule.EncodableIsErrorFree | engine/src/molecule.rs:50 | a tree that can be serialised has no `Error` node |
| Molecule.NodeAtom | engine/src/molecule.rs:29-49 | a block becomes a SmallBlock exactly below 256 children and a Block otherwise, with its kind and child count; a Bytes leaf becomes FewBytes exactly below 256 bytes and Bytes otherwise, with the payload unchanged |
| Molecule.AtomsCount | engine/src/molecule.rs:27-52 | there are exactly as many atoms as Block and Bytes nodes, and the node's own atom comes first |
| Molecule.PreOrder | engine/src/molecule.rs:29-44 | a block's atom is followed directly by its first child's atoms and then by the other children's atoms |
| Molecule.AtomsEncodable | engine/src/molecule.rs:27-52 | every atom of a serialisable tree passes the assertions of `to_bytes` |
| Molecule.ToAtomsInto | engine/src/molecule.rs:27-52 | the output vector becomes its old contents followed by the tree's atoms in pre-order, so earlier entries are never rewritten |
| Molecule.ToAtoms | engine/src/molecule.rs:20-24 | the atoms of the tree in pre-order, one per node, the root's atom first |
| Molecule.EncodingSplit | engine/src/doc.rs:23-32 | a block's bytes are its own atom's encoding followed by its children's bytes; a leaf's bytes are its atom's encoding |
| Molecule.WithoutSourceErrors | engine/src/doc.rs:36-40 | succeeds exactly when the tree has no `Error` node, and then gives the same tree typed for the `Pure` source |
| Molecule.CastRoundTrip | engine/src/source.rs:1-9 | retyping an error-free tree for another source and back gives the tree back |
| Memory.Parse | engine/src/memory.rs:30-78 | `MemoryMolecule::try_from` with the child cursor behind the whole block atom, the corrected half of Findings row engine/src/memory.rs:37; `Memory.ParseShape`, `Memory.ParseFailsOnlyOnFirstAtom` and `Memory.RoundTrip` state what it promises |
| Memory.ParseAsWritten | engine/src/memory.rs:30-78 | the same parser with children always starting at offset 8, as engine/src/memory.rs:37 writes it, over the corrected atom decoder; `Memory.AsWrittenRegularBlockMisreadsFirstChild` and `Memory.AsWrittenWideBlockDoesNotRoundTrip` show where it goes wrong |
| Memory.ChildrenStart | engine/src/memory.rs:35-37 | the child cursor starts on a word boundary, at 8 as written and behind the whole atom when corrected |
| Memory.ParseShape | engine/src/memory.rs:30-78 | a parsed tree ends on a word boundary and has no `Error` node |
| Memory.ParseAtomShape | engine/src/memory.rs:34-75 | a Reference panics; a Bytes or FewBytes atom is a leaf with its payload that consumes the atom's `length_in_bytes`; both block atoms give a block of their kind |
| Memory.ParseChildrenShape | engine/src/memory.rs:38-46 | the loop keeps no more children than announced, none of them holding an `Error` node, and ends on a word boundary |
| Memory.ParseFailsOnlyOnFirstAtom | engine/src/memory.rs:31-33 | the parse fails exactly when the first atom fails to decode |
| Memory.ChildPanics | engine/src/memory.rs:39 | a child that panics makes its block panic |
| Memory.ChildFails | engine/src/memory.rs:44 | a child that fails to parse ends the loop, and it and every later child are dropped |
| Memory.ChildParsed | engine/src/memory.rs:40-43 | a parsed child is kept, and the loop goes on behind the bytes it consumed |
| Memory.ChildrenTruncated | engine/src/memory.rs:38-46 | when fewer children come back than announced, the bytes behind the last of them do not start with a decodable atom |
| Memory.ParseChildrenLoop | engine/src/memory.rs:36-46 | the loop with its cursor and pushed children computes the recursive child parse |
| Memory.ParseBlockLoop | engine/src/memory.rs:47-48 | the block holds the children of the loop and consumes up to the cursor |
| Memory.TryFrom | engine/src/memory.rs:30-78 | the parser as a method computes the parse function |
| Memory.ChildLoopIsParseChildren | engine/src/memory.rs:38-46 | the loop's state after any number of turns is the recursive parse of the remaining children behind those collected |
| Memory.From | engine/src/memory.rs:18-23 | the result is `Error(UnexpectedEnd)` exactly when the first atom fails to decode, whatever the atom error was, and otherwise has no `Error` node |
| Memory.RoundTrip | engine/src/memory.rs:30-78 | parsing the bytes of any serialisable tree, whatever follows them, gives the tree back and consumes exactly its bytes |
| Memory.RoundTripAll | engine/src/memory.rs:38-46 | the child loop over the bytes of a list of trees gives back every tree and consumes exactly their bytes |
| Memory.AsWrittenRegularBlockMisreadsFirstChild | engine/src/memory.rs:35-49 | as written, a tree with 256 or more children whose first child is a Bytes leaf does not come back; the corrected parser gives it back |
| Memory.AsWrittenWideBlockDoesNotRoundTrip | engine/src/memory.rs:37 | a block of 256 empty leaves comes back from the corrected parser and not from the parser as written |
| Doc.Encoding | engine/src/doc.rs:19-34 | the bytes `to_bytes` writes: the magic, the version, then the root's atoms; `Doc.EncodingLayout` states their layout and `Doc.FromBytesEncoding` that `from_bytes` reads them back |
| Doc.ToBytes | engine/src/doc.rs:19-34 | the extend steps write the header followed by every atom's encoding in pre-order |
| Doc.EncodingLayout | engine/src/doc.rs:19-34 | the bytes start with "SemDoc" and two zero version bytes, continue with the root's bytes, and end on a word boundary |
| Doc.VersionZero | engine/src/doc.rs:50-54 | the version field reads 0 exactly when both bytes are zero |
| Doc.FromBytes | engine/src/doc.rs:43-57 | `from_bytes`: the three header checks in order, then `MemoryMolecule::from` of the rest; `Doc.FromBytesHeader` states its cases and `Doc.FromBytesEncoding` its round trip |
| Doc.FromBytesHeader | engine/src/doc.rs:43-57 | under 8 bytes is `UnexpectedEnd`; otherwise a wrong magic is `MagicBytesInvalid` before any version check; otherwise a non-zero version is `UnknownVersion`; with a valid header the call returns the document around `MemoryMolecule::from` of the rest, or panics when that panics |
| Doc.WithoutSourceErrors | engine/src/doc.rs:36-40 | succeeds exactly when the root has no `Error` node, and then holds the root typed for the `Pure` source |
| Doc.FromBytesEncoding | engine/src/doc.rs:43-57 | decoding the bytes of a document gives back its tree |
| Doc.QuickcheckRoundTrip | engine/src/doc.rs:84-92 | a `Pure` document goes through `to_bytes`, `from_bytes` and `without_source_errors` unchanged |
| Molecules.BlockOf | engine/src/molecules.rs:23-28 | returns a molecule exactly for a Block datum, and that molecule is the one the datum wraps |
| Molecules.BytesOf | engine/src/molecules.rs:29-34 | returns bytes exactly for a Bytes datum, and they are its payload unchanged |
| Molecules.DataFrom | engine/src/molecules.rs:55-74 | a successful decode consumes at least one atom and no more atoms than there are |
| Molecules.ChildrenFrom | engine/src/molecules.rs:57-64 | a successful child loop yields exactly `num_children` children and stays within the atoms |
| Molecules.DataFromCases | engine/src/molecules.rs:47-74 | no atoms is `UnexpectedEnd`; a leading Reference panics; a leading Bytes or FewBytes atom is a leaf with its payload that consumes one atom, and `Molecule::from` then reports `FirstAtomShouldBeBlock`; a leading Block consumes its own atom plus what its children consume, and fails or panics exactly as its children do |
| Molecules.MoleculeFrom | engine/src/molecules.rs:47-52 | `Molecule::from`: the first datum, which must be a block (`FirstAtomShouldBeBlock` otherwise); `Scheduler.ScheduleThenDecode` states that it inverts `schedule` |
| Molecules.ChildFailureFailsAll | engine/src/molecules.rs:61 | a child that fails makes the whole loop fail with that child's error, whatever follows it |
| Molecules.ChildStops | engine/src/molecules.rs:61 | a child that panics or fails ends the loop, with that child's outcome |
| Molecules.ChildDecodedAt | engine/src/molecules.rs:61-63 | a decoded child is kept and the loop goes on at the cursor moved by the atoms it consumed |
| Molecules.DecodeData | engine/src/molecules.rs:55-74 | the decoder as a method, with its cursor loop, computes `DataFrom` |
| Molecules.DecodeChildren | engine/src/molecules.rs:57-66 | the cursor loop over `0..num_children` computes `ChildrenFrom` |
| Scheduler.CountByte | engine/src/scheduler.rs:21 | `len as u8` leaves a count below 256 unchanged and is otherwise congruent to it modulo 256 |
| Scheduler.BytesAtom | engine/src/scheduler.rs:26-32 | a byte child becomes a FewBytes atom exactly below 256 bytes and a Bytes atom otherwise, with the payload unchanged |
| Scheduler.AtomsOf | engine/src/scheduler.rs:18-35 | the atoms `_schedule` pushes: the block atom with its `u8` count, then each child depth-first; `Scheduler.ScheduleInto` computes it and `Scheduler.RoundTrip` states that `MoleculeData::from` reads it back |
| Scheduler.AtomsOfChildrenAppend | engine/src/scheduler.rs:23-34 | the children's atoms are laid out one child after the other |
| Scheduler.ScheduleInto | engine/src/scheduler.rs:18-35 | the output becomes its old contents followed by the molecule's own Block atom and then its children's atoms depth-first |
| Scheduler.Schedule | engine/src/scheduler.rs:11-15 | a fresh vector filled by `_schedule` holds exactly the molecule's atoms |
| Scheduler.AtomsOfCount | engine/src/scheduler.rs:18-35 | there is one atom per molecule of the tree plus one per byte child |
| Scheduler.RoundTrip | engine/src/scheduler.rs:18-35 | decoding the scheduled atoms, whatever follows them, gives the molecule back and consumes exactly its atoms, when every molecule has fewer than 256 children |
| Scheduler.RoundTripChildren | engine/src/scheduler.rs:23-34 | the child loop over the atoms of a list of children gives back every child and consumes exactly their atoms |
| Scheduler.ScheduleThenDecode | engine/src/molecules.rs:47-52 | `Molecule::from(schedule(m))` is `m` whenever every molecule has fewer than 256 children |
| Scheduler.AsWrittenCountWraps | engine/src/scheduler.rs:19-22 | a molecule with 256 byte children is scheduled as an atom that announces 0 children, and decodes as a childless molecule |
| EngineAtoms.Fill | engine/src/engine/atoms.rs:96-102 | the fill is between 1 and 8 bytes and reaches a multiple of 8; a length that is already aligned gets a whole word of 8 |
| EngineAtoms.Align | engine/src/engine/atoms.rs:95-102 | the push loop appends exactly `Fill` zero bytes, so the buffer ends on a word boundary |
| EngineAtoms.Encoding | engine/src/engine/atoms.rs:12-35 | the bytes `to_bytes` writes: a Block's header and its children's bytes, or a Bytes atom's length, payload and padding; `EngineAtoms.ToBytes` computes it, `EngineAtoms.EncodingAligned` bounds it and `EngineAtoms.DecodeEncoding` decodes it back |
| EngineAtoms.ToBytes | engine/src/engine/atoms.rs:12-35 | the push and extend steps produce the encoding: a Block is tag 0, the child count, the kind, a zero terminator and padding, then its children's bytes; a Bytes atom is tag 1, six zeros, the length byte, the payload and padding |
| EngineAtoms.EncodingAligned | engine/src/engine/atoms.rs:12-35 | every encoding is a positive multiple of 8 bytes long |
| EngineAtoms.FirstZero | engine/src/engine/atoms.rs:45-53 | the kind loop stops at a zero byte: a found index lies inside the data, at or after the start, and holds a zero |
| EngineAtoms.FirstZeroFirst | engine/src/engine/atoms.rs:45-53 | that zero is the first one: no byte between the start and it is zero, and nothing is found only when no byte from the start on is zero |
| EngineAtoms.DecodeAt | engine/src/engine/atoms.rs:37-89 | a decoded atom consumes at least one byte and stays within the data |
| EngineAtoms.ChildrenAt | engine/src/engine/atoms.rs:63 | a successful child read yields exactly `num_children` atoms and stays within the data |
| EngineAtoms.DecodePanics | engine/src/engine/atoms.rs:37-38 | no byte left, or a tag other than 0 or 1, panics |
| EngineAtoms.DecodeBlockPadPanics | engine/src/engine/atoms.rs:55-61 | a Block whose padding holds a non-zero byte panics |
| EngineAtoms.DecodeBlockAt | engine/src/engine/atoms.rs:39-66 | the tag-0 arm of `Atom::from`: the count byte, the kind up to its terminator, the zero padding, then the children, within the data; `EngineAtoms.BlockDecodes`, `EngineAtoms.BlockStops` and `EngineAtoms.DecodeBlockPadPanics` state its outcomes |
| EngineAtoms.BlockDecodes | engine/src/engine/atoms.rs:39-66 | a Block whose header checks pass decodes to the kind up to the first zero and to the children read behind the padding |
| EngineAtoms.BlockStops | engine/src/engine/atoms.rs:55-63 | a Block whose padding runs past the data or is not zero, or whose children panic, panics |
| EngineAtoms.ByteIterator.Next | engine/src/engine/atoms.rs:38 | `next` yields the byte under the cursor and advances it, or `None` at the end without moving |
| EngineAtoms.ReadKind | engine/src/engine/atoms.rs:45-53 | the kind loop keeps the bytes up to the first zero, consumes and counts that zero, and finds no kind when there is no zero |
| EngineAtoms.SkipPadding | engine/src/engine/atoms.rs:55-61 | the padding loop succeeds exactly when `fill` bytes remain and all of them are zero, and then moves past them |
| EngineAtoms.ReadLength | engine/src/engine/atoms.rs:68-73 | the length loop succeeds exactly when seven bytes remain, and reads them as a big-endian number |
| EngineAtoms.ReadPayload | engine/src/engine/atoms.rs:75 | the payload is read exactly when `length` bytes remain, and is those bytes |
| EngineAtoms.From | engine/src/engine/atoms.rs:37-89 | the iterator-based decoder panics exactly where `DecodeAt` does, and otherwise returns its atom and leaves the iterator just behind it |
| EngineAtoms.FromBlock | engine/src/engine/atoms.rs:39-66 | the tag-0 arm computes the Block decode and leaves the iterator behind the last child |
| EngineAtoms.FromBytes | engine/src/engine/atoms.rs:67-86 | the tag-1 arm computes the Bytes decode and leaves the iterator behind the padding |
| EngineAtoms.ReadChildren | engine/src/engine/atoms.rs:63 | the child map computes the child read, each child starting where the previous one ended |
| EngineAtoms.DecodeBytesAt | engine/src/engine/atoms.rs:67-86 | the tag-1 arm: a 7-byte length, the payload and its zero padding, within the data; `EngineAtoms.BytesDecodes` states its result |
| EngineAtoms.BytesDecodes | engine/src/engine/atoms.rs:67-86 | a Bytes atom whose length and padding checks pass decodes to the payload and stops behind the padding |
| EngineAtoms.EncodingLaid | engine/src/engine/atoms.rs:12-35 | the bytes of an encodable atom with zero-free kinds are its header and children laid out where the decoder looks for them |
| EngineAtoms.RoundTrip | engine/src/engine/atoms.rs:37-89 | decoding an atom laid out at any position, whatever surrounds it, gives it back and stops exactly behind its bytes |
| EngineAtoms.RoundTripChildren | engine/src/engine/atoms.rs:63 | reading the children laid out one after another gives each one back and stops behind the last |
| EngineAtoms.DecodeEncoding | engine/src/engine/atoms.rs:12-89 | `from(to_bytes(a))` is `a` whatever follows, consuming every byte of the encoding, for atoms with fewer than 256 children and payload bytes and no zero byte in a kind |
| EngineAtoms.AsWrittenZeroInKind | engine/src/engine/atoms.rs:45-53 | a Block whose kind is `[7, 0, 7]` does not decode back to itself |
| Book.Serialize | engine/src/book.rs:26-72 | every block becomes a Block atom; an Unknown block keeps its kind and serialises its children in order; every known block gets its own fixed code; a Text block carries exactly one Bytes child holding its text |
| Book.SerializeAll | engine/src/book.rs:32-35 | one atom per child, in order, each the child's serialisation |
| Book.KindsDistinct | engine/src/book.rs:37-70 | two known blocks get the same code exactly when they are the same variant |
| Book.Deserialize | engine/src/book.rs:79-117 | `deserialize`: the kind code picks the variant, a Bytes atom is `Err`, and the `unwrap`s panic; `Book.DeserializeFailures`, `Book.DeserializeUnknown` and `Book.RoundTrip` state its cases and its round trip |
| Book.DeserializeAll | engine/src/book.rs:108-114 | the children deserialized in order, one block per atom, panicking at the first that does not deserialize; `Book.DeserializeAllEach` states both directions |
| Book.DeserializeAllEach | engine/src/book.rs:91-102 | the children deserialise exactly when each one does without error, and then each result is that child's block |
| Book.DeserializeFailures | engine/src/book.rs:83-106 | a Bytes atom is `Err`; a kind-5 block whose first child is not Bytes is `Err`; a kind-5 block without children and a kind-2 block with fewer than two children panic |
| Book.DeserializeUnknown | engine/src/book.rs:108-114 | a kind above 6 gives Unknown with that kind and the children deserialised in order, and panics when one of them fails |
| Book.RoundTrip | engine/src/book.rs:25-117 | `deserialize(serialize(b))` is `Ok(b)` for every tree whose Unknown kinds are above 6 |
| Book.RoundTripAll | engine/src/book.rs:108-114 | a list of such trees comes back in order |
| Book.UnknownWithKnownKind | engine/src/book.rs:30-38 | an Unknown block with kind 0 comes back as Empty, so the round trip needs fresh kinds |
| Flattening.FlatOf | engine/src/flatten.rs:19-54 | the list `flatten` returns: the block at `next_id`, followed by its children's lists; `Flattening.FlatSize`, `Flattening.FlatHead`, `Flattening.FlatRefs` and `Flattening.FlattenThenUnflatten` state its shape and its inverse |
| Flattening.Flatten | engine/src/flatten.rs:19-54 | the method computes the flat list of the tree with the tree's root at id `next` |
| Flattening.FlattenAll | engine/src/flatten.rs:58-71 | the loop pushes one id per item and appends the items' lists one after the other |
| Flattening.FlatAppend | engine/src/flatten.rs:58-71 | flattening two runs of items is flattening the first, then the second from the id behind it |
| Flattening.FlatSize | engine/src/flatten.rs:19-54 | the list holds exactly one node per node of the tree |
| Flattening.FlatHead | engine/src/flatten.rs:23-52 | the tree's root comes first, with its children replaced by their ids |
| Flattening.SectionLayout | engine/src/flatten.rs:29-38 | a Section at id `k` stores its title at `k + 1` and its body right behind the title's list |
| Flattening.FlatIdsSteps | engine/src/flatten.rs:60-68 | there is one id per item; the first is `next`, and each next one lies behind the previous item's list |
| Flattening.FlatIdsRange | engine/src/flatten.rs:60-68 | every id `flatten_all` hands out points into the list it returns |
| Flattening.FlatRefs | engine/src/flatten.rs:19-54 | every id stored in the list points strictly forward and inside the list |
| Flattening.FlatAllRefs | engine/src/flatten.rs:58-71 | the same holds for the list of a run of items |
| Flattening.UnflattenAt | engine/src/flatten.rs:82-96 | `unflatten_at`: the node at the index with its children rebuilt from their ids, a panic past the end, and an Unknown node without children; `Flattening.UnflattenOutOfRange`, `Flattening.UnflattenStored`, `Flattening.SectionUnflattens` and `Flattening.SequenceUnflattens` state its cases |
| Flattening.Unflatten | engine/src/flatten.rs:79-81 | `unflatten`: the tree at id 0; `Flattening.FlattenThenUnflatten` states that it inverts `flatten(b, 0)` up to Unknown children |
| Flattening.WithinForward | engine/src/flatten.rs:82-96 | a list whose ids point inside it from id 0 on points forward, so `unflatten_at` terminates on it |
| Flattening.UnflattenOutOfRange | engine/src/flatten.rs:85 | `get(index).unwrap()` past the end of the list panics |
| Flattening.UnflattenStored | engine/src/flatten.rs:82-104 | a tree's list stored anywhere in a forward list unflattens, from where it is stored, to the tree without its Unknown children |
| Flattening.SectionUnflattens | engine/src/flatten.rs:89-92 | a Section node unflattens to the Section of what its title and body ids unflatten to |
| Flattening.SequenceUnflattens | engine/src/flatten.rs:93-94 | a sequence node unflattens to the same kind of sequence of what its ids unflatten to |
| Flattening.UnflattenAllStored | engine/src/flatten.rs:101-104 | ids handed out by `flatten_all` unflatten to the items in order |
| Flattening.StripKeeps | engine/src/flatten.rs:24-26 | dropping the children of Unknown nodes changes nothing in a tree where they have none |
| Flattening.FlattenThenUnflatten | engine/src/flatten.rs:19-104 | `flatten(b, 0)` points forward and inside itself, and `unflatten` of it is `b` with the children of its Unknown nodes dropped |
| Flattening.FlattenThenUnflattenExact | engine/src/flatten.rs:19-104 | for a tree without Unknown children, `unflatten(flatten(b, 0))` is `b` |
| Lowering.LowerIds | engine/src/lowering.rs:53-57 | one Block datum per id, in order |
| Lowering.BlockIdsOfLowered | engine/src/lowering.rs:53-57 | reading the ids back from lowered ids gives them back |
| Lowering.Lower | engine/src/lowering.rs:17-49 | `lower`: the kind code and the data of each flat node; `Lowering.LoweredData` states them variant by variant and `Lowering.LiftLower` that `Lowering.Lift` inverts it |
| Lowering.Lift | engine/src/lowering.rs:17-49 | a reading back of a lowered block, defined in the model as the reference inverse of `lower` (the source has no such function); `Lowering.LiftLower` connects the two |
| Lowering.LoweredData | engine/src/lowering.rs:17-49 | Empty has kind 0 and no data; Text has kind 1 and one run of bytes holding its text; Section has kind 2 and its title and body ids; the sequences have kinds 3 and 4 and one id per item; an Unknown node keeps its kind and has no data |
| Lowering.KindDeterminesVariant | engine/src/lowering.rs:27-46 | two known nodes are lowered to the same kind exactly when they are the same variant |
| Lowering.LiftLower | engine/src/lowering.rs:17-49 | lowering loses nothing: a flat node whose Unknown kind is above 4 is read back from its lowering |
| SsssScan.WhitespaceEnd | src/ssss/scan.rs:61-72 | the whitespace loop stops at the first character that is not whitespace, or at the end, and everything it passed is whitespace |
| SsssScan.WordEnd | src/ssss/scan.rs:73-88 | the word loop stops at the first brace or whitespace, or at the end, and everything it passed belongs to the word |
| SsssScan.TokenAt | src/ssss/scan.rs:47-94 | every token takes at least one character and stays within the source |
| SsssScan.TokenAtShape | src/ssss/scan.rs:50-89 | a token is Open or Close exactly for a brace not followed by the same brace; a doubled brace is a word holding one brace that spans two characters; otherwise the token is a non-empty maximal run of whitespace, or of word characters, spelling out the characters it spans |
| SsssScan.TokenIter.constructor | src/ssss/scan.rs:31-36 | a new iterator is at the start of the source with offset 0 |
| SsssScan.TokenIter.Peek | src/ssss/scan.rs:50 | `peek` shows the next character without taking it, or nothing at the end |
| SsssScan.TokenIter.Advance | src/ssss/scan.rs:38-41 | `advance` counts one more offset even past the end, and takes the next character when there is one |
| SsssScan.TokenIter.Next | src/ssss/scan.rs:47-94 | at the end of the source `next` yields nothing and still counts one offset; otherwise it yields the token at the cursor with the offsets it spans and moves the cursor behind it |
| SsssScan.TokenIter.ReadWhitespace | src/ssss/scan.rs:62-71 | the loop takes the whole run of whitespace and returns exactly those characters |
| SsssScan.TokenIter.ReadWord | src/ssss/scan.rs:77-87 | the loop takes the whole run of word characters and returns exactly those characters |
| SsssScan.Tokens | src/ssss/scan.rs:19-94 | everything the token iterator of `tokens` yields, each being the token at its offset; `SsssScan.TokensRender`, `SsssScan.TokensContiguous`, `SsssScan.TokenShapes` and `SsssScan.RunsMaximal` state its properties |
| SsssScan.TokensRender | src/ssss/scan.rs:12-17 | the tokens spell out the source: a brace for Open and Close and a word with its braces doubled give back every character |
| SsssScan.TokensContiguous | src/ssss/scan.rs:47-94 | the tokens cover the source without gap or overlap: the first starts at 0, each spans at least one character and starts where the previous one ended, and the last ends at the end |
| SsssScan.TokenShapes | src/ssss/scan.rs:47-94 | every token of the source is the token that starts at its own offset, so each has one of the shapes above |
| SsssScan.RunsMaximal | src/ssss/scan.rs:61-88 | two whitespace tokens never follow each other, nor two plain words: the runs are maximal |
| MarkupScan.KindOf | src/ssss/parse.rs:25-33 | Open exactly for `{`, Close exactly for `}`, Newline exactly for a line feed, Whitespace exactly for a space or a tab, and Word for everything else |
| MarkupScan.Scanned | src/ssss/parse.rs:45-78 | the tokens `scan` returns: maximal runs of one kind, the last ending at the byte length; `MarkupScan.Scan` computes it, and `MarkupScan.ScanValues` and `MarkupScan.ScanToken` state its shape |
| MarkupScan.Scan | src/ssss/parse.rs:45-78 | the loop over the characters with its pending kind and buffer computes the merged runs, the last ending at the byte length |
| MarkupScan.RunsValues | src/ssss/parse.rs:51-67 | the runs spell out the source |
| MarkupScan.RunShape | src/ssss/parse.rs:51-67 | each run is a non-empty slice of characters of its own kind; the next run starts where it ends and has another kind |
| MarkupScan.ScanValues | src/ssss/parse.rs:45-78 | the values of the tokens, one after another, are the source, and there are no tokens exactly for an empty source |
| MarkupScan.ScanToken | src/ssss/parse.rs:45-78 | each token is a non-empty run of characters of its kind; the first starts at 0, the next starts where it ends and has another kind, and the last ends at the byte length of the source |
| MarkupScan.LastEndCountsBytes | src/ssss/parse.rs:51-75 | the positions are character indices, except the end of the last token, which is a byte length: for `é` it is 2 |
| SsssParse.TextFrom | src/ssss/parse.rs:174-196 | the characters the loop of `parse_text` builds from a token on; `SsssParse.TextFromPanics`, `SsssParse.TextFromVisible` and `SsssParse.TextRules` state what it does |
| SsssParse.ParseText | src/ssss/parse.rs:167-198 | `parse_text`: nothing for whitespace only, else the trimmed text; `SsssParse.ParseTextLoop` computes it, and `SsssParse.ParseTextCases` and `SsssParse.ParseTextShape` state its cases and its shape |
| SsssParse.ParseTextLoop | src/ssss/parse.rs:167-198 | the loop over a peekable iterator of the tokens computes what `parse_text` returns: nothing, a trimmed text, or a panic |
| SsssParse.TextFromPanics | src/ssss/parse.rs:174-176 | the loop of `parse_text` panics exactly when a brace is among the tokens it reads |
| SsssParse.TextFromVisible | src/ssss/parse.rs:174-196 | the loop's rewriting of whitespace and newlines keeps every visible character of the tokens, in order |
| SsssParse.TextRules | src/ssss/parse.rs:178-194 | whitespace before a newline becomes one newline, and a newline with whitespace behind it becomes one space: `a`, two spaces, a newline, a space and `b` give `"a\n b"` |
| SsssParse.ParseTextCases | src/ssss/parse.rs:167-176 | `parse_text` gives nothing exactly for no tokens or whitespace tokens only, and panics exactly when the tokens hold something else and a brace |
| SsssParse.ParseTextShape | src/ssss/parse.rs:167-198 | a returned text neither starts nor ends with whitespace and holds every visible character of the tokens, in order |
| SsssParse.LastWord | src/ssss/parse.rs:108-118 | the index found is the last Word of the buffer, and no index is found exactly when the buffer holds no Word |
| SsssParse.NameSplit | src/ssss/parse.rs:108-118 | the name is the last Word of the buffer, the tokens before it stay in the buffer and those behind it are dropped; there is no name exactly when the buffer has no Word |
| SsssParse.TakeName | src/ssss/parse.rs:108-118 | the `remove` loop computes `NameSplit` |
| SsssParse.BodyFrom | src/ssss/parse.rs:99-165 | a parsed body stops at a position within the tokens, at or behind where it started |
| SsssParse.BodiesFrom | src/ssss/parse.rs:126-147 | the loop after a block's first body stops within the tokens and keeps the bodies it was given, in order, at the front of its result |
| SsssParse.BodiesFromCases | src/ssss/parse.rs:126-147 | the loop skips a run of whitespace tokens. Behind the run, an Open appends the body it starts and the loop goes on behind that body, a panic in that body is the loop's panic, and any other token or the end stops the loop there with the bodies unchanged |
| SsssParse.BodyOfText | src/ssss/parse.rs:99-165 | a body without braces is the text `parse_text` makes of all its tokens, after what the buffer already held, and ends at the end of the tokens |
| SsssParse.OpenHead | src/ssss/parse.rs:107-149 | the Open branch of `parse_body`: the block named by the buffer, with its first body and the further bodies; `SsssParse.OpenHeadShape` states its shape and `SsssParse.ParseBlock` computes it |
| SsssParse.OpenHeadShape | src/ssss/parse.rs:107-149 | with no Word in the buffer the Open branch panics; otherwise the block is named by the last Word, has at least one body, and comes after the text of the tokens before its name |
| SsssParse.CloseEndsBody | src/ssss/parse.rs:150-155 | a body that ends before the tokens run out ends behind a Close, and the tokens after that Close are never read: whatever replaces them, the body and its end are the same |
| SsssParse.CloseEndsExample | src/ssss/parse.rs:150-155 | `a}b` parses to the text `a`, ending behind the Close |
| SsssParse.SkipSpace | src/ssss/parse.rs:91-94 | `skip_while` drops exactly the leading run of whitespace and newline tokens and keeps the rest unchanged |
| SsssParse.ScannedKindsHold | src/ssss/parse.rs:90-94 | every token of `scan`, with or without the leading whitespace, holds only characters of its own kind |
| SsssParse.TokenStream.Next | src/ssss/parse.rs:104 | `next` yields the token under the cursor and advances, or nothing at the end |
| SsssParse.TokenStream.Peek | src/ssss/parse.rs:128-138 | `peek` shows the token under the cursor without taking it |
| SsssParse.ParseBody | src/ssss/parse.rs:99-165 | the stream-based loop panics where `BodyFrom` does, and otherwise returns its body and leaves the stream just behind the Close that ended it |
| SsssParse.ParseBlock | src/ssss/parse.rs:107-149 | the Open branch computes `OpenHead` and leaves the stream behind the block's last body |
| SsssParse.ParseBodies | src/ssss/parse.rs:126-147 | the loop over further bodies computes `BodiesFrom` |
| SsssParse.Parse | src/ssss/parse.rs:89-97 | `parse`: one body from the tokens after the leading whitespace; `SsssParse.ParseSource` computes it |
| SsssParse.ParseSource | src/ssss/parse.rs:89-97 | `parse` scans, skips the leading whitespace and parses one body from the rest |
| MarkupParse.JoinSnoc | parser/src/parse.rs:148-173 | joining one more part appends it to the joined string |
| MarkupParse.TextFrom | parser/src/parse.rs:151-172 | the characters the loop of `parse_text` builds from a token on; `MarkupParse.TextFromPanics`, `MarkupParse.TextFromVisible`, `MarkupParse.TextFromNewlines` and `MarkupParse.TextRules` state what it does |
| MarkupParse.ParseText | parser/src/parse.rs:144-174 | `parse_text`: nothing for whitespace only, else the trimmed join of the parts; `MarkupParse.ParseTextLoop` computes it, and `MarkupParse.ParseTextCases` and `MarkupParse.ParseTextShape` state its cases and its shape |
| MarkupParse.ParseTextLoop | parser/src/parse.rs:144-174 | the loop that pushes text parts and joins them computes what `parse_text` returns: nothing, a trimmed text, or a panic |
| MarkupParse.TextFromPanics | parser/src/parse.rs:151-153 | the string of the parts panics exactly when a brace is among the tokens it reads |
| MarkupParse.TextFromVisible | parser/src/parse.rs:151-172 | the string of the parts keeps every visible character of the tokens, in order |
| MarkupParse.TextFromNewlines | parser/src/parse.rs:155-170 | a Newline token adds no character: the string never has more newlines than there are Newline tokens, and fewer when it starts at one |
| MarkupParse.TextRules | parser/src/parse.rs:155-170 | whitespace before a newline becomes one newline, and the whitespace behind the newline is swallowed with it: `a`, two spaces, a newline, a space and `b` give `"a\nb"` |
| MarkupParse.LoneNewlineDropped | parser/src/parse.rs:164-170 | a newline between two words is dropped and the words run together: `a`, a newline and `b` give `"ab"` |
| MarkupParse.ParseTextCases | parser/src/parse.rs:144-153 | `parse_text` gives nothing exactly for no tokens or whitespace tokens only, and panics exactly when the tokens hold something else and a brace |
| MarkupParse.ParseTextShape | parser/src/parse.rs:144-174 | a returned text neither starts nor ends with whitespace and holds every visible character of the tokens, in order |
| MarkupParse.ContentFrom | parser/src/parse.rs:99-142 | a parsed content stops at a position within the tokens, at or behind where it started |
| MarkupParse.OpenHead | parser/src/parse.rs:107-126 | the Open branch of `parse_content`: the block named by the buffer, with the one content up to its Close; `MarkupParse.OpenHeadShape` states its shape and `MarkupParse.ParseBlock` computes it |
| MarkupParse.OpenHeadShape | parser/src/parse.rs:107-126 | with no Word in the buffer the Open branch panics; otherwise the block is named by the last Word, holds the content read up to the matching Close, ends the branch where that content ends, and comes after the text of the tokens before its name |
| MarkupParse.SecondContentPanics | parser/src/parse.rs:107-125 | a block has one content only: `a{} {}` panics, because the second `{` finds no Word in the buffer |
| MarkupParse.ParseContent | parser/src/parse.rs:99-142 | the stream-based loop panics where `ContentFrom` does, and otherwise returns its content and leaves the stream just behind the Close that ended it |
| MarkupParse.ParseBlock | parser/src/parse.rs:107-126 | the Open branch computes `OpenHead` and leaves the stream behind the block's content |
| MarkupParse.Parse | parser/src/parse.rs:89-97 | `parse`: one content from the tokens after the leading whitespace; `MarkupParse.ParseSource` computes it |
| MarkupParse.ParseSource | parser/src/parse.rs:89-97 | `parse` scans, skips the leading whitespace and parses one content from the rest |
| SsssFormat.Indentation | src/ssss/format.rs:27-29 | the indentation is `indentation * level` spaces and nothing else |
| SsssFormat.IndentLen | src/ssss/format.rs:27-29 | the byte length of the indentation is its number of spaces |
| SsssFormat.Stripped | src/ssss/format.rs:194-203 | the pop loop removes exactly the trailing spaces: what is left is a prefix of the line that does not end with a space, and everything removed is a space |
| SsssFormat.PopSpaces | src/ssss/format.rs:194-203 | the `pop` and `push` loop computes `Stripped` |
| SsssFormat.Flushed | src/ssss/format.rs:179-214 | `flush_word`: a word that fits goes onto the line; otherwise the line is stripped and, past the start of a line, ended; `SsssFormat.FlushedKeeps` states what it keeps and `SsssFormat.FlushWord` computes it |
| SsssFormat.FlushWord | src/ssss/format.rs:179-214 | `flush_word` updates the lines, the line and the offset it is handed by reference exactly as `Flushed` says: the word onto the line when it fits, and otherwise the line without its trailing spaces closed unless at offset 0, and the word after the indentation |
| SsssFormat.Wrapped | src/ssss/format.rs:173-240 | `wrap_words`: the text fed character by character, then the last word flushed; `SsssFormat.WrapWords` computes it, and `SsssFormat.WrappedKeepsWords` and `SsssFormat.WrappedFits` state what it keeps |
| SsssFormat.WrapWords | src/ssss/format.rs:173-240 | the character loop, the last flush and the join compute `Wrapped` |
| SsssFormat.FlushedKeeps | src/ssss/format.rs:179-214 | `flush_word` moves the word onto the lines without losing a visible character, and leaves a positive offset |
| SsssFormat.FeedKeeps | src/ssss/format.rs:216-227 | one character of the loop keeps the state sound and adds that character's visible characters |
| SsssFormat.FeedAllKeeps | src/ssss/format.rs:216-227 | the loop over a text holds every visible character of the text, in order |
| SsssFormat.WrappedKeepsWords | src/ssss/format.rs:173-240 | `wrap_words` changes whitespace only: it never drops, splits or reorders a word; it always reports an inlined offset, never below the indentation |
| SsssFormat.FitsUnchanged | src/ssss/format.rs:187-190 | text that fits into the rest of the line starts no new line, and each word goes onto the line unchanged |
| SsssFormat.WrappedFits | src/ssss/format.rs:173-240 | text that fits into the rest of the line comes back unchanged |
| SsssFormat.IsInlinable | src/ssss/format.rs:57-72 | `is_inlinable`: a text, or a block with one body holding one text; `SsssFormat.ElementLayout` states that exactly these come back inlined |
| SsssFormat.InlineTextAsWritten | src/ssss/format.rs:82-89 | the inline text as written, with the block's text put in unescaped, the as-written half of Findings row src/ssss/format.rs:79-89; `SsssFormat.AsWrittenInlineUnescaped` shows the brace it loses |
| SsssFormat.InlineText | src/ssss/format.rs:79-89 | the inlined text is the name, a brace with a space only at the start of a line, the block's text escaped the way a Text element is, and the closing brace |
| SsssFormat.Place | src/ssss/format.rs:108-123 | placing one body panics exactly when the body is one line and the limit is below 2, where `limit - 2` underflows |
| SsssFormat.BlockFrom | src/ssss/format.rs:97-123 | the loop of `Element::format` over a block's bodies, each placed with `SsssFormat.Place`; `SsssFormat.FormatElement` computes it and `SsssFormat.PlaceVisible` states what each step keeps |
| SsssFormat.ElementLayout | src/ssss/format.rs:57-131 | an inlinable element is always wrapped inline, and any other element returns a block that is not inlined (the corrected formatter: an inlined block's text is escaped too, Findings row src/ssss/format.rs:79-89) |
| SsssFormat.NodesLayout | src/ssss/format.rs:134-171 | a list of nodes asked for at a non-zero offset fails the assertion, and is otherwise never inlined (the corrected formatter: an inlined block's text is escaped too, Findings row src/ssss/format.rs:79-89) |
| SsssFormat.NodesFrom | src/ssss/format.rs:134-171 | the loop of `[Node]::format` over the nodes; `SsssFormat.FormatNodes` computes it and `SsssFormat.FormatKeepsContent` states what it keeps (the corrected formatter, Findings row src/ssss/format.rs:79-89) |
| SsssFormat.Formatted | src/ssss/format.rs:4-13 | a formatted document ends with a newline (the corrected formatter: an inlined block's text is escaped too, Findings row src/ssss/format.rs:79-89) |
| SsssFormat.FormatElement | src/ssss/format.rs:74-131 | `Element::format`, with its loop over the bodies, computes `ElementLayout` (the corrected formatter: an inlined block's text is escaped too, Findings row src/ssss/format.rs:79-89) |
| SsssFormat.FormatNodes | src/ssss/format.rs:134-171 | `[Node]::format`, with its loop over the nodes, computes `NodesLayout` (the corrected formatter: an inlined block's text is escaped too, Findings row src/ssss/format.rs:79-89) |
| SsssFormat.Format | src/ssss/format.rs:4-13 | `format` computes `Formatted` (the corrected formatter: an inlined block's text is escaped too, Findings row src/ssss/format.rs:79-89) |
| SsssFormat.PlaceVisible | src/ssss/format.rs:108-123 | wherever a body goes, on the same line or on lines of its own, its visible characters follow the block's between one pair of braces |
| SsssFormat.InlineVisible | src/ssss/format.rs:79-89 | the escaped inlined text keeps the visible characters of the block's content |
| SsssFormat.TextEscaped | src/ssss/format.rs:77 | a Text element is wrapped with every brace doubled |
| SsssFormat.ElementVisible | src/ssss/format.rs:74-131 | formatting an element changes whitespace only: its visible characters are those of the element's content with the braces of every text doubled (the corrected formatter: an inlined block's text is escaped too, Findings row src/ssss/format.rs:79-89) |
| SsssFormat.FormatKeepsContent | src/ssss/format.rs:4-13 | `format` changes whitespace only: the output holds exactly the visible characters of the tree's content, in order (the corrected formatter: an inlined block's text is escaped too, Findings row src/ssss/format.rs:79-89) |
| SsssFormat.ElementReturns | src/ssss/format.rs:109 | with a limit of at least 2 formatting an element never panics |
| SsssFormat.FormatReturns | src/ssss/format.rs:4-13 | `format` never panics with a limit of at least 2, and panics with a smaller limit as soon as a block that is not inlined has a body of one line (the corrected formatter: an inlined block's text is escaped too, Findings row src/ssss/format.rs:79-89) |
| SsssFormat.AsWrittenInlineUnescaped | src/ssss/format.rs:79-89 | as written, the block `b` whose only text is `{` is formatted with one brace fewer than its content, so it no longer reads back as that block |
| Strings.Utf8Len | src/ssss/format.rs:187 | a character takes 1 to 4 bytes, and one byte exactly when it is ASCII |
| Strings.ByteLen | src/ssss/format.rs:187-190 | `str::len` lies between the number of characters and four times it |
| Strings.ByteLenAppend | src/ssss/format.rs:190 | the byte length of two strings joined is the sum of their byte lengths |
| Strings.ByteLenAscii | src/ssss/format.rs:100 | for ASCII text the byte length is the number of characters |
| Strings.TrimStart | src/ssss/parse.rs:197 | `trim_start` drops exactly the leading run of whitespace: the rest is a suffix that does not start with whitespace |
| Strings.TrimEnd | src/ssss/parse.rs:197 | `trim_end` drops exactly the trailing run of whitespace: the rest is a prefix that does not end with whitespace |
| Strings.TrimEmpty | src/ssss/parse.rs:197 | trimming leaves nothing exactly when the string is all whitespace |
| Strings.TrimEnds | src/ssss/parse.rs:197 | a trimmed string neither starts nor ends with whitespace |
| Strings.TrimVisible | src/ssss/parse.rs:197 | trimming drops whitespace only |
| Strings.TrimmedAlready | src/ssss/parse.rs:197 | a string that neither starts nor ends with whitespace is its own trim |
| Strings.VisibleAppend | src/ssss/format.rs:216-227 | the visible characters of two strings joined are those of the first followed by those of the second |
| Strings.Replace | src/ssss/format.rs:77 | replacing a character by a string that does not contain it leaves none of it |
| Strings.Escaped | src/ssss/format.rs:77 | escaping adds exactly one character per brace |
| Strings.ReplaceBracesEscapes | src/ssss/format.rs:77 | `replace("{", "{{").replace("}", "}}")` doubles every brace and changes nothing else |
| Strings.ReplaceAppend | src/ssss/format.rs:77 | replacing in two strings joined is replacing in each |

## Left out

- The typed Block layer (`to_molecule`, `Block::from`, `Block::without_source_errors`) is not part of this model. A document holds its root molecule directly.
- `Molecule::block` is the Block constructor itself.
- Reference atoms are modelled only as far as their encoding and decoding go. Every consumer is `todo!`.
- Serialising an `Error` molecule is `todo!`. It is excluded by the `Encodable` precondition, and `Molecule.EncodableIsErrorFree` records it.
- The `assert!`s of `to_bytes` are preconditions (`Atoms.Encodable`), not panics.
- The quickcheck `Arbitrary` generators are not modelled. The round trip is proved for all trees within the encoder's bounds.
- `usize` overflow is not modelled: lengths are unbounded `nat`s.
- The memory parser is modelled on top of the corrected atom decoder, `Memory.ParseAsWritten` included: it keeps only the child cursor as written. The slice defects of `try_from` are exhibited separately, in `Atoms.TryFromAsWritten`, with `clone_from_slice` taken to decode any width (Findings row engine/src/utils.rs:19). As written, every Block, SmallBlock, Bytes and Reference decode panics in `clone_from_slice` before any of those slices is reached.
- engine/src/molecules.rs and engine/src/scheduler.rs are written against an older atom type (`Block { kind, num_children: u8 }`, with no SmallBlock), so `LegacyAtoms` gives them that type of their own. Likewise `Book.Atom` is the kind-and-children atom engine/src/book.rs is written against.
- EngineAtoms.ToBytes: requires what its `u8::try_from(...).unwrap()` calls demand (fewer than 256 children, payloads below 256 bytes) instead of modelling the panic.
- EngineAtoms.DecodeEncoding: requires that no kind holds a zero byte, the decoder's terminator. `EngineAtoms.AsWrittenZeroInKind` shows what happens otherwise.
- The `u64` length of a Bytes atom is a `nat`: seven bytes never overflow it.
- Book.Deserialize: `String::from_utf8(...).unwrap()` is not modelled. A Text block holds the UTF-8 bytes of its string, so invalid UTF-8 is not rejected.
- The Unknown arms of engine/src/flatten.rs:24 and engine/src/lowering.rs:23 name fields the types do not have (the block's children, the flat node's children). The model reads them as the fields that exist: flattening drops an Unknown block's children, and lowering gives it no data.
- Flattening.UnflattenAt: requires a list whose ids point forward, so that it terminates. A list with a cycle would make `unflatten_at` recurse without end.
- The `println!("Block name expected.")` of both parsers is output only and is left out. Its branch is unreachable anyway: the buffer never holds a brace.
- Node metadata (source positions in src/ssss/tree.rs) is not modelled: the formatter works on elements, and a `Body` is a list of elements.
- `str::replace` is modelled for a single character being replaced, which is how the formatter uses it.
- The `parse_text` panic on a brace cannot be reached from `parse_body`, which buffers no braces. It is modelled and characterised (`SsssParse.ParseTextCases`) but not excluded.
- `limit - 2` in src/ssss/format.rs:109 underflows below 2. The model makes that a panic, as a debug build does, not a wrap-around.
- `offset + 5 + len` and other `usize` sums in the formatter are unbounded `nat`s.
- The lazy `map` over the bodies in src/ssss/format.rs:97 is evaluated body by body inside the loop. In the source nothing else happens between the two, so the order is the same.
- parser/src/format.rs is not part of this model: it does not compile as written. It uses the unit result of `format_text` as a string and calls a `context.indent()` that does not exist.
- Scheduler.CountByte: models the `as u8` truncation as written. The round trip is stated for molecules with fewer than 256 children only.
- SsssFormat.ElementLayout: lays out an inlined block through the escaped `SsssFormat.InlineText`, not the unescaped text of src/ssss/format.rs:82-89, so `SsssFormat.Format` is the corrected formatter. For the block `b` whose only body is the text `{`, the source gives `b { { }` and the model `b { {{ }`. `SsssFormat.AsWrittenInlineUnescaped` exhibits the source's output.
- The quickcheck tests and the CLI, server, viewer and converter crates are not modelled.

## Findings

| source | as written | input that shows it | evidently intended | confidence | as-written member | corrected member |
|---|---|---|---|---|---|---|
| engine/src/utils.rs:19 | `clone_from_slice` asserts an 8-byte slice, but every caller in atoms.rs passes 6 or 7 bytes | bytes 2..8 of any SmallBlock atom | decode whatever slice it is given, big-endian | not executed | Atoms.AsWrittenKindFieldPanics | Utils.FromToBigEndian |
| engine/src/atoms.rs:105 | a Block's child count is read from bytes 9..16, while `to_bytes` writes it to bytes 8..16 | with `clone_from_slice` taken to decode any width (Findings row engine/src/utils.rs:19), `Block { kind: 0, num_children: 2^56 }` comes back with 0 children | read bytes 8..16 | not executed | Atoms.AsWrittenBlockCount | Atoms.TryFromToBytes |
| engine/src/atoms.rs:105 | the slice `bytes[9..16]` panics on an 8- to 15-byte buffer that opens with the Block tag | `[0, 0, 0, 0, 0, 0, 0, 1]` | report `UnexpectedEnd` | not executed | Atoms.AsWrittenShortBlockPanics | Atoms.TryFromFits |
| engine/src/atoms.rs:117 | the padding slice panics when the buffer ends inside the padding | `[2, 0, 0, 0, 0, 0, 0, 1, 65]`, with `clone_from_slice` taken to decode any width (Findings row engine/src/utils.rs:19) | report `UnexpectedEnd` | not executed | Atoms.AsWrittenCutPaddingPanics | Atoms.TryFromPayloadErrors |
| engine/src/atoms.rs:127 | FewBytes checks only `2 + length` bytes, so padding that runs past the buffer is accepted | `[3, 7, 1, 1, 1, 1, 1, 1, 1]` decodes, though the atom occupies 16 bytes | check the padded length | not executed | Atoms.AsWrittenFewBytesOverrun | Atoms.TryFromFits |
| engine/src/memory.rs:37 | children always start at offset 8, inside a 16-byte regular Block atom | a block of 256 empty Bytes leaves | start behind the whole atom | not executed | Memory.AsWrittenWideBlockDoesNotRoundTrip | Memory.RoundTrip |
| src/ssss/format.rs:79-89 | an inlined block puts its text between braces without doubling the braces in it, unlike a Text element (src/ssss/format.rs:77) | the block `b` whose only body is the text `{` | escape the text as a Text element is | not executed | SsssFormat.AsWrittenInlineUnescaped | SsssFormat.InlineVisible |
