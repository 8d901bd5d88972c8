/** The atom codec (engine/src/atoms.rs): the five word-aligned binary
    primitives of the format, their byte lengths, their encoding and their
    decoding with framing checks. */
module Atoms {
  import opened Wrappers
  import opened Utils

  type AtomKind = U64

  datatype Atom =
    | Block(kind: AtomKind, numChildren: U64)
    | SmallBlock(kind: AtomKind, count: Byte)
    | Bytes(payload: seq<Byte>)
    | FewBytes(payload: seq<Byte>)
    | Reference(offset: U64)

  datatype AtomError = UnexpectedEnd | UnknownType(tag: Byte) | AlignmentNotZero

  /** The tag byte that opens each atom (`mod kind`). */
  const BlockTag: Byte := 0
  const SmallBlockTag: Byte := 1
  const BytesTag: Byte := 2
  const FewBytesTag: Byte := 3
  const ReferenceTag: Byte := 4

  const MaxValueUsing6Bytes: nat := 281474976710656 - 1
  const MaxValueUsing7Bytes: nat := 72057594037927936 - 1

  function Tag(a: Atom): Byte {
    match a
    case Block(_, _) => BlockTag
    case SmallBlock(_, _) => SmallBlockTag
    case Bytes(_) => BytesTag
    case FewBytes(_) => FewBytesTag
    case Reference(_) => ReferenceTag
  }

  /** The inline FewBytes header word holds at most this many payload bytes. */
  function FewBytesOverflow(p: seq<Byte>): nat {
    if |p| < 6 then 0 else |p| - 6
  }

  /** `length_in_bytes`: how many bytes the atom occupies on the wire. */
  function LengthInBytes(a: Atom): (n: nat)
    ensures n >= 8 && n % 8 == 0
  {
    match a
    case Block(_, _) => 16
    case SmallBlock(_, _) => 8
    case Bytes(p) =>
      MultiplesAdd(8, RoundUpToMultipleOf(|p|, 8), 8);
      8 + RoundUpToMultipleOf(|p|, 8)
    case FewBytes(p) =>
      MultiplesAdd(8, RoundUpToMultipleOf(FewBytesOverflow(p), 8), 8);
      8 + RoundUpToMultipleOf(FewBytesOverflow(p), 8)
    case Reference(_) => 8
  }

  lemma RoundUpShift(n: nat)
    ensures RoundUpToMultipleOf(n + 8, 8) == 8 + RoundUpToMultipleOf(n, 8)
  {
    assert (n + 8) % 8 == n % 8;
  }

  /** A Bytes atom is its one-word header and the payload padded to words;
      a FewBytes atom is two header bytes and the payload padded to words,
      so six payload bytes still fit in one word and seven need two. */
  lemma PaddedLengths(p: seq<Byte>)
    ensures LengthInBytes(Bytes(p)) == RoundUpToMultipleOf(8 + |p|, 8)
    ensures LengthInBytes(FewBytes(p)) == RoundUpToMultipleOf(2 + |p|, 8)
    ensures LengthInBytes(FewBytes(p)) == 8 <==> |p| <= 6
    ensures |p| == 7 ==> LengthInBytes(FewBytes(p)) == 16
  {
    RoundUpShift(|p|);
    if |p| < 6 {
      assert FewBytesOverflow(p) == 0;
      RoundUpIsLeast(2 + |p|, 8, 8);
    } else {
      RoundUpShift(|p| - 6);
      assert 2 + |p| == |p| - 6 + 8;
      if |p| == 7 {
        RoundUpIsLeast(1, 8, 8);
      }
    }
  }

  /** The bounds `to_bytes` asserts before encoding. */
  predicate Encodable(a: Atom) {
    match a
    case Block(kind, _) => kind <= MaxValueUsing6Bytes
    case SmallBlock(kind, _) => kind <= MaxValueUsing6Bytes
    case Bytes(p) => |p| <= MaxValueUsing7Bytes
    case FewBytes(p) => |p| <= 255
    case Reference(offset) => offset <= MaxValueUsing7Bytes
  }

  /** `u64::to_be_bytes`. */
  function ToBeBytes(v: U64): (bs: seq<Byte>)
    ensures |bs| == 8
  {
    Pow256Values();
    ToBigEndian(v, 8)
  }

  /** The last `w` bytes of `to_be_bytes` hold a value that fits in `w`
      bytes; the bytes before them are zero. */
  lemma LowBytes(v: U64, w: nat)
    requires w <= 8 && v < Pow256(w)
    ensures ToBeBytes(v)[8 - w..] == ToBigEndian(v, w)
    ensures AllZero(ToBeBytes(v)[..8 - w])
  {
    ToBigEndianPadded(v, w, 8 - w);
    assert ToBeBytes(v) == Zeros(8 - w) + ToBigEndian(v, w);
  }

  /** Byte 8 of a regular Block atom is the high byte of its child count,
      zero for any count below 2^56. */
  lemma BlockCountHighByte(a: Atom)
    requires Encodable(a) && a.Block? && a.numChildren < Pow256(7)
    ensures |ToBytes(a)| == 16 && ToBytes(a)[8] == 0
  {
    Pow256Values();
    LowBytes(a.numChildren, 7);
    assert ToBytes(a)[8] == ToBeBytes(a.numChildren)[..1][0];
  }

  /** `to_bytes`. */
  function ToBytes(a: Atom): (r: seq<Byte>)
    requires Encodable(a)
    ensures |r| == LengthInBytes(a)
    ensures r[0] == Tag(a)
  {
    match a
    case Block(kind, n) => [BlockTag, 0] + ToBeBytes(kind)[2..] + ToBeBytes(n)
    case SmallBlock(kind, n) => [SmallBlockTag, n] + ToBeBytes(kind)[2..]
    case Bytes(p) =>
      Pow256Values();
      PaddedLengths(p);
      Aligned([BytesTag] + ToBeBytes(|p|)[1..] + p)
    case FewBytes(p) =>
      PaddedLengths(p);
      Aligned([FewBytesTag, |p|] + p)
    case Reference(offset) => [ReferenceTag] + ToBeBytes(offset)[1..]
  }

  /** Where each field sits in an encoding: the kind in bytes 2..8 of both
      block forms, the compact child count in byte 1, the full child count in
      bytes 8..16, the 56-bit length or offset in bytes 1..8, and the payload
      followed only by zero bytes. */
  lemma ToBytesLayout(a: Atom)
    requires Encodable(a)
    ensures var r := ToBytes(a);
      && ((a.Block? || a.SmallBlock?) ==> FromBigEndian(r[2..8]) == a.kind)
      && (a.Block? ==> r[1] == 0 && FromBigEndian(r[8..16]) == a.numChildren)
      && (a.SmallBlock? ==> r[1] == a.count)
      && (a.Bytes? ==> FromBigEndian(r[1..8]) == |a.payload|
                       && r[8..8 + |a.payload|] == a.payload
                       && AllZero(r[8 + |a.payload|..]))
      && (a.FewBytes? ==> r[1] == |a.payload|
                          && r[2..2 + |a.payload|] == a.payload
                          && AllZero(r[2 + |a.payload|..]))
      && (a.Reference? ==> FromBigEndian(r[1..8]) == a.offset)
  {
    match a
    case Block(_, _) => BlockLayout(a);
    case SmallBlock(_, _) => BlockLayout(a);
    case Bytes(_) => BytesLayout(a);
    case FewBytes(_) => FewBytesLayout(a);
    case Reference(_) => ReferenceLayout(a);
  }

  lemma BlockLayout(a: Atom)
    requires Encodable(a) && (a.Block? || a.SmallBlock?)
    ensures var r := ToBytes(a);
      && FromBigEndian(r[2..8]) == a.kind
      && (a.Block? ==> r[1] == 0 && FromBigEndian(r[8..16]) == a.numChildren)
      && (a.SmallBlock? ==> r[1] == a.count)
  {
    Pow256Values();
    var r := ToBytes(a);
    LowBytes(a.kind, 6);
    FromToBigEndian(a.kind, 6);
    assert r[2..8] == ToBeBytes(a.kind)[2..];
    if a.Block? {
      assert r[8..16] == ToBeBytes(a.numChildren);
      FromToBigEndian(a.numChildren, 8);
    }
  }

  lemma BytesLayout(a: Atom)
    requires Encodable(a) && a.Bytes?
    ensures var r := ToBytes(a);
      && FromBigEndian(r[1..8]) == |a.payload|
      && r[8..8 + |a.payload|] == a.payload
      && AllZero(r[8 + |a.payload|..])
  {
    Pow256Values();
    var p := a.payload;
    var r := ToBytes(a);
    LowBytes(|p|, 7);
    FromToBigEndian(|p|, 7);
    var unpadded := [BytesTag] + ToBeBytes(|p|)[1..] + p;
    assert r[..|unpadded|] == unpadded;
    assert r[1..8] == unpadded[1..8] == ToBeBytes(|p|)[1..];
    assert r[8..8 + |p|] == unpadded[8..] == p;
  }

  lemma FewBytesLayout(a: Atom)
    requires Encodable(a) && a.FewBytes?
    ensures var r := ToBytes(a);
      && r[1] == |a.payload|
      && r[2..2 + |a.payload|] == a.payload
      && AllZero(r[2 + |a.payload|..])
  {
    var p := a.payload;
    var r := ToBytes(a);
    var unpadded := [FewBytesTag, |p|] + p;
    assert r[..|unpadded|] == unpadded;
    assert r[2..2 + |p|] == unpadded[2..] == p;
  }

  lemma ReferenceLayout(a: Atom)
    requires Encodable(a) && a.Reference?
    ensures FromBigEndian(ToBytes(a)[1..8]) == a.offset
  {
    Pow256Values();
    var r := ToBytes(a);
    LowBytes(a.offset, 7);
    FromToBigEndian(a.offset, 7);
    assert r[1..8] == ToBeBytes(a.offset)[1..];
  }

  /** `try_from`, with the framing corrections listed under Findings: both
      block forms read their fields from the bytes the encoder writes, and an
      atom whose padded length runs past the buffer is `UnexpectedEnd`.  As in
      the source, FewBytes padding is not checked. */
  function TryFrom(bytes: seq<Byte>): Result<Atom, AtomError> {
    Pow256Values();
    if |bytes| < 8 then Failure(UnexpectedEnd)
    else if bytes[0] == BlockTag then
      if |bytes| < 16 then Failure(UnexpectedEnd)
      else Success(Block(FromBigEndian(bytes[2..8]), FromBigEndian(bytes[8..16])))
    else if bytes[0] == SmallBlockTag then
      Success(SmallBlock(FromBigEndian(bytes[2..8]), bytes[1]))
    else if bytes[0] == BytesTag then
      var length := FromBigEndian(bytes[1..8]);
      var end := RoundUpToMultipleOf(8 + length, 8);
      if |bytes| < end then Failure(UnexpectedEnd)
      else if !AllZero(bytes[8 + length..end]) then Failure(AlignmentNotZero)
      else Success(Bytes(bytes[8..8 + length]))
    else if bytes[0] == FewBytesTag then
      var length: nat := bytes[1];
      if |bytes| < RoundUpToMultipleOf(2 + length, 8) then Failure(UnexpectedEnd)
      else Success(FewBytes(bytes[2..2 + length]))
    else if bytes[0] == ReferenceTag then
      Success(Reference(FromBigEndian(bytes[1..8])))
    else
      Failure(UnknownType(bytes[0]))
  }

  /** The first byte is the tag: a buffer shorter than a word is
      `UnexpectedEnd`, an unknown tag is `UnknownType`, and a decoded atom
      has the tag it was read with. */
  lemma TryFromTag(bytes: seq<Byte>)
    ensures var r := TryFrom(bytes);
      && (r.Success? ==> |bytes| >= 8 && Tag(r.value) == bytes[0])
      && (|bytes| < 8 ==> r == Failure(UnexpectedEnd))
      && (|bytes| >= 8 && bytes[0] > ReferenceTag ==> r == Failure(UnknownType(bytes[0])))
  {
  }

  /** A decoded atom lies entirely inside the buffer it was read from. */
  lemma TryFromFits(bytes: seq<Byte>)
    requires TryFrom(bytes).Success?
    ensures LengthInBytes(TryFrom(bytes).value) <= |bytes|
  {
    var a := TryFrom(bytes).value;
    if a.Bytes? || a.FewBytes? {
      PaddedLengths(a.payload);
    }
  }

  /** The error cases of a Bytes atom: a length that runs past the buffer is
      `UnexpectedEnd`; otherwise any non-zero padding byte is
      `AlignmentNotZero`.  A FewBytes atom can only run past the end. */
  lemma TryFromPayloadErrors(bytes: seq<Byte>)
    requires |bytes| >= 8
    ensures bytes[0] == BytesTag ==>
      var length := FromBigEndian(bytes[1..8]);
      var end := RoundUpToMultipleOf(8 + length, 8);
      && (TryFrom(bytes) == Failure(UnexpectedEnd) <==> |bytes| < end)
      && (TryFrom(bytes) == Failure(AlignmentNotZero) <==>
            |bytes| >= end && !AllZero(bytes[8 + length..end]))
    ensures bytes[0] == FewBytesTag ==>
      && TryFrom(bytes) != Failure(AlignmentNotZero)
      && (TryFrom(bytes).Failure? <==> |bytes| < RoundUpToMultipleOf(2 + (bytes[1] as int), 8))
  {
  }

  /** Decoding inverts encoding for every atom within the encoder's bounds,
      whatever follows the atom in the buffer. */
  lemma TryFromToBytes(a: Atom, rest: seq<Byte>)
    requires Encodable(a)
    ensures TryFrom(ToBytes(a) + rest) == Success(a)
  {
    match a
    case Block(_, _) => TryFromToBytesBlock(a, rest);
    case SmallBlock(_, _) => TryFromToBytesBlock(a, rest);
    case Bytes(_) => TryFromToBytesPayload(a, rest);
    case FewBytes(_) => TryFromToBytesFew(a, rest);
    case Reference(_) => TryFromToBytesReference(a, rest);
  }

  lemma TryFromToBytesBlock(a: Atom, rest: seq<Byte>)
    requires Encodable(a) && (a.Block? || a.SmallBlock?)
    ensures TryFrom(ToBytes(a) + rest) == Success(a)
  {
    var r := ToBytes(a);
    var bytes := r + rest;
    BlockLayout(a);
    assert bytes[2..8] == r[2..8];
    if a.Block? {
      assert bytes[8..16] == r[8..16];
    }
  }

  lemma TryFromToBytesFew(a: Atom, rest: seq<Byte>)
    requires Encodable(a) && a.FewBytes?
    ensures TryFrom(ToBytes(a) + rest) == Success(a)
  {
    var p := a.payload;
    var r := ToBytes(a);
    var bytes := r + rest;
    FewBytesLayout(a);
    PaddedLengths(p);
    assert bytes[2..2 + |p|] == r[2..2 + |p|];
  }

  lemma TryFromToBytesReference(a: Atom, rest: seq<Byte>)
    requires Encodable(a) && a.Reference?
    ensures TryFrom(ToBytes(a) + rest) == Success(a)
  {
    var r := ToBytes(a);
    var bytes := r + rest;
    ReferenceLayout(a);
    assert bytes[1..8] == r[1..8];
  }

  lemma TryFromToBytesPayload(a: Atom, rest: seq<Byte>)
    requires Encodable(a) && a.Bytes?
    ensures TryFrom(ToBytes(a) + rest) == Success(a)
  {
    var p := a.payload;
    var r := ToBytes(a);
    var bytes := r + rest;
    BytesLayout(a);
    assert bytes[1..8] == r[1..8];
    PaddedLengths(p);
    assert bytes[8..8 + |p|] == r[8..8 + |p|];
    assert bytes[8 + |p|..|r|] == r[8 + |p|..];
  }

  /** Conversely, a decoded atom is within the encoder's bounds and its
      encoding reproduces the bytes it was read from, up to the bytes the
      decoder does not look at: byte 1 of a regular Block and the padding of a
      FewBytes atom. */
  lemma ToBytesTryFrom(bytes: seq<Byte>)
    requires TryFrom(bytes).Success?
    ensures Encodable(TryFrom(bytes).value)
    ensures var a := TryFrom(bytes).value; var r := ToBytes(a);
      match a
      case Block(_, _) => r[0] == bytes[0] && r[2..] == bytes[2..16]
      case FewBytes(p) => r[..2 + |p|] == bytes[..2 + |p|]
      case _ => LengthInBytes(a) <= |bytes| && r == bytes[..LengthInBytes(a)]
  {
    Pow256Values();
    var a := TryFrom(bytes).value;
    match a
    case Block(kind, n) => ReencodeBlock(bytes, a);
    case SmallBlock(kind, n) => ReencodeSmallBlock(bytes, a);
    case Bytes(p) => ReencodeBytes(bytes, a);
    case FewBytes(p) =>
      FewBytesLayout(a);
      var r := ToBytes(a);
      assert r[..2 + |p|] == r[..2] + r[2..2 + |p|];
      assert bytes[..2 + |p|] == bytes[..2] + bytes[2..2 + |p|];
    case Reference(offset) => ReencodeReference(bytes, a);
  }

  /** Two big-endian fields of one width with one value are the same bytes. */
  lemma BigEndianInjective(x: seq<Byte>, y: seq<Byte>)
    requires |x| == |y| && FromBigEndian(x) == FromBigEndian(y)
    ensures x == y
  {
    ToFromBigEndian(x);
    ToFromBigEndian(y);
  }

  lemma ReencodeBlock(bytes: seq<Byte>, a: Atom)
    requires TryFrom(bytes) == Success(a) && a.Block?
    ensures Encodable(a) && ToBytes(a)[2..] == bytes[2..16]
  {
    Pow256Values();
    var r := ToBytes(a);
    BlockLayout(a);
    BigEndianInjective(r[2..8], bytes[2..8]);
    BigEndianInjective(r[8..16], bytes[8..16]);
    assert r[2..] == r[2..8] + r[8..16];
    assert bytes[2..16] == bytes[2..8] + bytes[8..16];
  }

  lemma ReencodeSmallBlock(bytes: seq<Byte>, a: Atom)
    requires TryFrom(bytes) == Success(a) && a.SmallBlock?
    ensures Encodable(a) && ToBytes(a) == bytes[..8]
  {
    Pow256Values();
    var r := ToBytes(a);
    BlockLayout(a);
    BigEndianInjective(r[2..8], bytes[2..8]);
    assert r == r[..2] + r[2..8];
    assert bytes[..8] == bytes[..2] + bytes[2..8];
  }

  lemma ReencodeReference(bytes: seq<Byte>, a: Atom)
    requires TryFrom(bytes) == Success(a) && a.Reference?
    ensures Encodable(a) && ToBytes(a) == bytes[..8]
  {
    Pow256Values();
    var r := ToBytes(a);
    ReferenceLayout(a);
    BigEndianInjective(r[1..8], bytes[1..8]);
    assert r == r[..1] + r[1..8];
    assert bytes[..8] == bytes[..1] + bytes[1..8];
  }

  lemma ReencodeBytes(bytes: seq<Byte>, a: Atom)
    requires TryFrom(bytes) == Success(a) && a.Bytes?
    ensures Encodable(a) && LengthInBytes(a) <= |bytes| && ToBytes(a) == bytes[..LengthInBytes(a)]
  {
    var p := a.payload;
    var n := LengthInBytes(a);
    BytesRead(bytes, a);
    BytesLayout(a);
    SameBytesFields(ToBytes(a), bytes, |p|, n);
  }

  /** What a successful read of a Bytes atom saw in the buffer. */
  lemma BytesRead(bytes: seq<Byte>, a: Atom)
    requires TryFrom(bytes) == Success(a) && a.Bytes?
    ensures Encodable(a) && 8 + |a.payload| <= LengthInBytes(a) <= |bytes|
    ensures bytes[0] == BytesTag && FromBigEndian(bytes[1..8]) == |a.payload|
    ensures bytes[8..8 + |a.payload|] == a.payload
    ensures AllZero(bytes[8 + |a.payload|..LengthInBytes(a)])
  {
    Pow256Values();
    TryFromFits(bytes);
    PaddedLengths(a.payload);
  }

  /** Two buffers that agree in the tag, the length field, the payload and
      the zero padding agree up to the padded length. */
  lemma SameBytesFields(r: seq<Byte>, bytes: seq<Byte>, k: nat, n: nat)
    requires 8 + k <= n == |r| <= |bytes| && r[0] == bytes[0]
    requires FromBigEndian(r[1..8]) == FromBigEndian(bytes[1..8])
    requires r[8..8 + k] == bytes[8..8 + k]
    requires AllZero(r[8 + k..]) && AllZero(bytes[8 + k..n])
    ensures r == bytes[..n]
  {
    BigEndianInjective(r[1..8], bytes[1..8]);
    AllZeroSame(r[8 + k..], bytes[8 + k..n]);
    SplitFour(r, 1, 8, 8 + k, n);
    SplitFour(bytes, 1, 8, 8 + k, n);
  }

  /** The bytes of a run of atoms, one encoding after the other. */
  function ToBytesAll(atoms: seq<Atom>): (r: seq<Byte>)
    requires forall i :: 0 <= i < |atoms| ==> Encodable(atoms[i])
    ensures |r| % 8 == 0
    ensures atoms != [] ==> |r| >= 8
  {
    if atoms == [] then []
    else
      var head, tail := ToBytes(atoms[0]), ToBytesAll(atoms[1..]);
      MultiplesAdd(|head|, |tail|, 8);
      head + tail
  }

  lemma EncodableAppend(xs: seq<Atom>, ys: seq<Atom>)
    requires forall i :: 0 <= i < |xs| ==> Encodable(xs[i])
    requires forall i :: 0 <= i < |ys| ==> Encodable(ys[i])
    ensures forall i :: 0 <= i < |xs + ys| ==> Encodable((xs + ys)[i])
  {
    forall i | 0 <= i < |xs + ys| ensures Encodable((xs + ys)[i]) {
      if i >= |xs| { assert (xs + ys)[i] == ys[i - |xs|]; }
    }
  }

  lemma {:induction false} ToBytesAllAppend(xs: seq<Atom>, ys: seq<Atom>)
    requires forall i :: 0 <= i < |xs| ==> Encodable(xs[i])
    requires forall i :: 0 <= i < |ys| ==> Encodable(ys[i])
    ensures forall i :: 0 <= i < |xs + ys| ==> Encodable((xs + ys)[i])
    ensures ToBytesAll(xs + ys) == ToBytesAll(xs) + ToBytesAll(ys)
  {
    EncodableAppend(xs, ys);
    if xs == [] {
      AppendEmpty(ys);
    } else {
      AppendHeadTail(xs, ys);
      EncodableAppend(xs[1..], ys);
      ToBytesAllAppend(xs[1..], ys);
      AppendAssoc(ToBytes(xs[0]), ToBytesAll(xs[1..]), ToBytesAll(ys));
    }
  }


  // ---------------------------------------------------------------------
  // The decoder as written (see Findings)
  // ---------------------------------------------------------------------

  /** `try_from` exactly as written, except that `clone_from_slice` is taken
      to decode whatever slice it gets (see `Utils.CloneFromSliceAsWritten`
      for what it really does): a regular Block reads its count from bytes
      9..16 and its slice panics on a buffer under 16 bytes; a Bytes atom
      panics when its padding runs past the buffer; a FewBytes atom only
      checks `2 + length`. */
  function TryFromAsWritten(bytes: seq<Byte>): (r: Outcome<Result<Atom, AtomError>>)
    ensures r.Returns? && r.value.Success? ==> |bytes| >= 8 && Tag(r.value.value) == bytes[0]
  {
    Pow256Values();
    if |bytes| < 8 then Returns(Failure(UnexpectedEnd))
    else if bytes[0] == BlockTag then
      if |bytes| < 16 then Panics
      else Returns(Success(Block(FromBigEndian(bytes[2..8]), FromBigEndian(bytes[9..16]))))
    else if bytes[0] == SmallBlockTag then
      Returns(Success(SmallBlock(FromBigEndian(bytes[2..8]), bytes[1])))
    else if bytes[0] == BytesTag then
      var length := FromBigEndian(bytes[1..8]);
      if |bytes| < 8 + length then Returns(Failure(UnexpectedEnd))
      else if |bytes| < RoundUpToMultipleOf(8 + length, 8) then Panics
      else if !AllZero(bytes[8 + length..RoundUpToMultipleOf(8 + length, 8)]) then
        Returns(Failure(AlignmentNotZero))
      else Returns(Success(Bytes(bytes[8..8 + length])))
    else if bytes[0] == FewBytesTag then
      var length: nat := bytes[1];
      if |bytes| < 2 + length then Returns(Failure(UnexpectedEnd))
      else Returns(Success(FewBytes(bytes[2..2 + length])))
    else if bytes[0] == ReferenceTag then
      Returns(Success(Reference(FromBigEndian(bytes[1..8]))))
    else
      Returns(Failure(UnknownType(bytes[0])))
  }

  /** As written, the 6-byte kind field every SmallBlock decode passes to
      `clone_from_slice` trips its 8-byte assertion. */
  lemma AsWrittenKindFieldPanics(a: Atom)
    requires a.SmallBlock? && Encodable(a)
    ensures CloneFromSliceAsWritten(ToBytes(a)[2..8]) == Panics
  {
  }

  /** As written, a regular Block survives a round trip exactly when its
      child count fits in 7 bytes: byte 8, the high byte of the count, is
      never read, so a count of 2^56 comes back as 0. */
  lemma AsWrittenBlockCount(kind: AtomKind, n: U64)
    requires kind <= MaxValueUsing6Bytes
    ensures n < Pow256(7) ==>
      TryFromAsWritten(ToBytes(Block(kind, n))) == Returns(Success(Block(kind, n)))
    ensures n == Pow256(7) ==>
      TryFromAsWritten(ToBytes(Block(kind, n))) == Returns(Success(Block(kind, 0)))
  {
    Pow256Values();
    var r := ToBytes(Block(kind, n));
    BlockLayout(Block(kind, n));
    assert r[9..16] == ToBeBytes(n)[1..];
    if n < Pow256(7) {
      LowBytes(n, 7);
      FromToBigEndian(n, 7);
    } else if n == Pow256(7) {
      ToBigEndianPower(7);
      assert ToBeBytes(n)[1..] == Zeros(7);
      FromToBigEndian(0, 7);
      ToBigEndianPadded(0, 0, 7);
      assert ToBigEndian(0, 7) == Zeros(7);
      assert FromBigEndian(r[9..16]) == 0;
    }
  }

  /** As written, an 8-byte buffer opening with the Block tag panics when
      the count slice is taken; the corrected decoder reports
      `UnexpectedEnd`. */
  lemma AsWrittenShortBlockPanics()
    ensures TryFromAsWritten([BlockTag, 0, 0, 0, 0, 0, 0, 1]) == Panics
    ensures TryFrom([BlockTag, 0, 0, 0, 0, 0, 0, 1]) == Failure(UnexpectedEnd)
  {
  }

  /** As written, a Bytes atom of length 1 whose padding is cut off panics
      while slicing the padding; the corrected decoder reports
      `UnexpectedEnd`. */
  lemma AsWrittenCutPaddingPanics()
    ensures TryFromAsWritten([BytesTag, 0, 0, 0, 0, 0, 0, 1, 65]) == Panics
    ensures TryFrom([BytesTag, 0, 0, 0, 0, 0, 0, 1, 65]) == Failure(UnexpectedEnd)
  {
    var bytes: seq<Byte> := [BytesTag, 0, 0, 0, 0, 0, 0, 1, 65];
    assert FromBigEndian(bytes[1..8]) == 1 by {
      assert bytes[1..8] == ToBigEndian(1, 7);
      FromToBigEndian(1, 7);
    }
  }

  /** As written, a FewBytes atom of seven payload bytes is accepted from a
      9-byte buffer although its length is 16 bytes, so a caller that
      advances by `length_in_bytes` steps past the end of the buffer; the
      corrected decoder reports `UnexpectedEnd`. */
  lemma AsWrittenFewBytesOverrun()
    ensures var bytes: seq<Byte> := [FewBytesTag, 7, 1, 1, 1, 1, 1, 1, 1];
      && TryFromAsWritten(bytes) == Returns(Success(FewBytes(bytes[2..])))
      && LengthInBytes(FewBytes(bytes[2..])) > |bytes|
      && TryFrom(bytes) == Failure(UnexpectedEnd)
  {
    var bytes: seq<Byte> := [FewBytesTag, 7, 1, 1, 1, 1, 1, 1, 1];
    assert bytes[2..2 + 7] == bytes[2..];
    PaddedLengths(bytes[2..]);
  }
}
