/** The nested atoms of engine/src/engine/atoms.rs: a Block atom carries
    its kind as zero-terminated bytes and its children inline behind a
    padded header; a Bytes atom carries a length and its payload.  The
    decoder reads them back from a byte iterator. */
module EngineAtoms {
  import opened Wrappers
  import opened Utils

  datatype Atom = Block(kind: seq<Byte>, children: seq<Atom>) | Bytes(payload: seq<Byte>)

  /** `8 - length % 8`: the zero bytes this `align` appends and the decoder
      skips, a full word when the length is already aligned. */
  function Fill(length: nat): (k: nat)
    ensures 1 <= k <= 8
    ensures (length + k) % 8 == 0
    ensures length % 8 == 0 ==> k == 8
  {
    8 - length % 8
  }

  /** `Align::align` of this module: pushes zero bytes one at a time. */
  method Align(bytes: seq<Byte>) returns (aligned: seq<Byte>)
    ensures aligned == bytes + Zeros(Fill(|bytes|))
    ensures |aligned| % 8 == 0 && |bytes| < |aligned| <= |bytes| + 8
  {
    var fillingAmount := 8 - |bytes| % 8;
    aligned := bytes;
    for i := 0 to fillingAmount
      invariant aligned == bytes + Zeros(i)
    {
      assert Zeros(i + 1) == Zeros(i) + [0];
      aligned := aligned + [0];
    }
  }

  /** What `to_bytes` accepts without its `try_from(...).unwrap()`
      panicking: fewer than 256 children and payloads below 256 bytes. */
  predicate Encodable(a: Atom)
    decreases a, 1
  {
    match a
    case Block(_, children) => |children| < 256 && AllEncodable(children)
    case Bytes(payload) => |payload| < 256
  }

  predicate AllEncodable(atoms: seq<Atom>)
    decreases atoms, 0
  {
    atoms == [] || (Encodable(atoms[0]) && AllEncodable(atoms[1..]))
  }

  /** No Block kind in the tree holds a zero byte, which the decoder would
      take for the terminator. */
  predicate ZeroFreeKinds(a: Atom)
    decreases a, 1
  {
    match a
    case Block(kind, children) => 0 !in kind && AllZeroFreeKinds(children)
    case Bytes(_) => true
  }

  predicate AllZeroFreeKinds(atoms: seq<Atom>)
    decreases atoms, 0
  {
    atoms == [] || (ZeroFreeKinds(atoms[0]) && AllZeroFreeKinds(atoms[1..]))
  }

  /** The padded header of a Block: tag 0, the child count, the kind, a zero
      terminator, then zero bytes up to the next word. */
  function BlockHeader(kind: seq<Byte>, count: Byte): seq<Byte> {
    var start := [0, count] + kind + [0];
    start + Zeros(Fill(|start|))
  }

  /** A Bytes atom: tag 1, six zero bytes, the length byte, the payload, then
      zero bytes up to the next word. */
  function BytesEncoding(payload: seq<Byte>): seq<Byte>
    requires |payload| < 256
  {
    var start := [1, 0, 0, 0, 0, 0, 0, |payload|] + payload;
    start + Zeros(Fill(|start|))
  }

  /** The bytes `to_bytes` produces: a Block's header followed by its
      children's bytes in order. */
  function Encoding(a: Atom): seq<Byte>
    requires Encodable(a)
    decreases a
  {
    match a
    case Block(kind, children) => BlockHeader(kind, |children|) + EncodingAll(children)
    case Bytes(payload) => BytesEncoding(payload)
  }

  function EncodingAll(atoms: seq<Atom>): seq<Byte>
    requires AllEncodable(atoms)
    decreases atoms
  {
    if atoms == [] then [] else Encoding(atoms[0]) + EncodingAll(atoms[1..])
  }

  /** The children from `i` on: the `i`th child's bytes, then the rest. */
  lemma EncodingAllFrom(atoms: seq<Atom>, i: nat)
    requires i < |atoms| && AllEncodable(atoms[i..])
    ensures Encodable(atoms[i]) && AllEncodable(atoms[i + 1..])
    ensures EncodingAll(atoms[i..]) == Encoding(atoms[i]) + EncodingAll(atoms[i + 1..])
  {
    assert atoms[i..][1..] == atoms[i + 1..];
  }

  /** `to_bytes`: pushes the header bytes, aligns, then extends with every
      child's bytes; a Bytes atom is its header and payload, aligned. */
  method ToBytes(a: Atom) returns (bytes: seq<Byte>)
    requires Encodable(a)
    ensures bytes == Encoding(a)
    decreases a
  {
    match a
    case Block(kind, children) =>
      bytes := [0];
      bytes := bytes + [|children|];
      bytes := bytes + kind;
      bytes := bytes + [0];
      bytes := Align(bytes);
      assert children[0..] == children;
      for i := 0 to |children|
        invariant AllEncodable(children[i..])
        invariant bytes + EncodingAll(children[i..]) == BlockHeader(kind, |children|) + EncodingAll(children)
      {
        EncodingAllFrom(children, i);
        var childBytes := ToBytes(children[i]);
        AppendAssoc(bytes, childBytes, EncodingAll(children[i + 1..]));
        bytes := bytes + childBytes;
      }
      AppendEmpty(bytes);
    case Bytes(payload) =>
      bytes := [1];
      bytes := bytes + Zeros(6);
      bytes := bytes + [|payload|];
      bytes := bytes + payload;
      bytes := Align(bytes);
      assert [1] + Zeros(6) + [|payload|] == [1, 0, 0, 0, 0, 0, 0, |payload|];
  }

  /** Every encoding ends on a word boundary. */
  lemma {:induction false} EncodingAligned(a: Atom)
    requires Encodable(a)
    ensures |Encoding(a)| % 8 == 0
    decreases a, 1
  {
    match a
    case Block(kind, children) =>
      EncodingAllAligned(children);
      MultiplesAdd(|BlockHeader(kind, |children|)|, |EncodingAll(children)|, 8);
    case Bytes(_) =>
  }

  lemma {:induction false} EncodingAllAligned(atoms: seq<Atom>)
    requires AllEncodable(atoms)
    ensures |EncodingAll(atoms)| % 8 == 0
    decreases atoms, 0
  {
    if atoms != [] {
      EncodingAligned(atoms[0]);
      EncodingAllAligned(atoms[1..]);
      MultiplesAdd(|Encoding(atoms[0])|, |EncodingAll(atoms[1..])|, 8);
    }
  }

  // ---------------------------------------------------------------------
  // Decoding.  The decoder works on an iterator; its specification reads
  // the same bytes by absolute position.

  /** The index of the first zero byte at or after `from`, if any. */
  function FirstZero(data: seq<Byte>, from: nat): (r: Option<nat>)
    requires from <= |data|
    ensures r.Some? ==> from <= r.value < |data| && data[r.value] == 0
    decreases |data| - from
  {
    if from == |data| then None
    else if data[from] == 0 then Some(from)
    else FirstZero(data, from + 1)
  }

  /** No zero byte lies between `from` and the one found, and none at all
      from `from` on when nothing is found. */
  lemma {:induction false} FirstZeroFirst(data: seq<Byte>, from: nat)
    requires from <= |data|
    ensures FirstZero(data, from).Some? ==> forall k :: from <= k < FirstZero(data, from).value ==> data[k] != 0
    ensures FirstZero(data, from).None? ==> forall k :: from <= k < |data| ==> data[k] != 0
    decreases |data| - from
  {
    if from < |data| && data[from] != 0 {
      FirstZeroFirst(data, from + 1);
    }
  }

  /** The `n` bytes from `at` on are there and are zero. */
  predicate ZerosAt(data: seq<Byte>, at: nat, n: nat)
    decreases n
  {
    n == 0 || (ZerosAt(data, at, n - 1) && at + n - 1 < |data| && data[at + n - 1] == 0)
  }

  lemma {:induction false} ZerosAtPrefix(data: seq<Byte>, at: nat, m: nat, n: nat)
    requires m <= n && ZerosAt(data, at, n)
    ensures ZerosAt(data, at, m)
    decreases n
  {
    if m < n {
      ZerosAtPrefix(data, at, m, n - 1);
    }
  }

  lemma {:induction false} ZerosAtAllZero(data: seq<Byte>, at: nat, n: nat)
    requires at + n <= |data|
    ensures ZerosAt(data, at, n) <==> AllZero(data[at..at + n])
    decreases n
  {
    if n > 0 {
      ZerosAtAllZero(data, at, n - 1);
      var s := data[at..at + n];
      assert data[at..at + n - 1] == s[..n - 1];
      assert s[n - 1] == data[at + n - 1];
    }
  }

  /** `Atom::from` on the bytes from `pos` on: the atom and the position
      behind it, or a panic where `next().unwrap()` finds no byte, a pad byte
      is not zero or the tag is unknown. */
  function DecodeAt(data: seq<Byte>, pos: nat): (r: Outcome<(Atom, nat)>)
    requires pos <= |data|
    ensures r.Returns? ==> pos < r.value.1 <= |data|
    decreases |data| - pos, 1
  {
    if pos == |data| then Panics
    else if data[pos] == 0 then DecodeBlockAt(data, pos)
    else if data[pos] == 1 then DecodeBytesAt(data, pos)
    else Panics
  }

  /** A Block behind tag 0: the child count, the kind up to its zero
      terminator, `8 - counter % 8` zero bytes where `counter` counts the
      bytes from the tag through the terminator, then the children. */
  function DecodeBlockAt(data: seq<Byte>, pos: nat): (r: Outcome<(Atom, nat)>)
    requires pos < |data|
    ensures r.Returns? ==> pos < r.value.1 <= |data|
    decreases |data| - pos, 0
  {
    if pos + 1 == |data| then Panics
    else
      match FirstZero(data, pos + 2)
      case None => Panics
      case Some(z) =>
        var fill := Fill(z + 1 - pos);
        if z + 1 + fill > |data| || !ZerosAt(data, z + 1, fill) then Panics
        else
          match ChildrenAt(data, z + 1 + fill, data[pos + 1])
          case Panics => Panics
          case Returns((children, end)) => Returns((Block(data[pos + 2..z], children), end))
  }

  /** A Bytes atom behind tag 1: a 7-byte big-endian length, the payload,
      then `8 - length % 8` zero bytes. */
  function DecodeBytesAt(data: seq<Byte>, pos: nat): (r: Outcome<(Atom, nat)>)
    requires pos < |data|
    ensures r.Returns? ==> pos < r.value.1 <= |data|
  {
    if pos + 8 > |data| then Panics
    else
      var length := FromBigEndian(data[pos + 1..pos + 8]);
      var fill := Fill(length);
      if pos + 8 + length + fill > |data| || !ZerosAt(data, pos + 8 + length, fill) then Panics
      else Returns((Bytes(data[pos + 8..pos + 8 + length]), pos + 8 + length + fill))
  }

  /** `(0..num_children).map(|_| Atom::from(bytes)).collect()`. */
  function ChildrenAt(data: seq<Byte>, pos: nat, count: nat): (r: Outcome<(seq<Atom>, nat)>)
    requires pos <= |data|
    ensures r.Returns? ==> pos <= r.value.1 <= |data| && |r.value.0| == count
    decreases |data| - pos, 2
  {
    if count == 0 then Returns(([], pos))
    else
      match DecodeAt(data, pos)
      case Panics => Panics
      case Returns((child, next)) =>
        match ChildrenAt(data, next, count - 1)
        case Panics => Panics
        case Returns((others, end)) => Returns(([child] + others, end))
  }

  /** The decoder's panics: on no byte at all and on a tag other than 0 and
      1. */
  lemma DecodePanics(data: seq<Byte>, pos: nat)
    requires pos <= |data|
    ensures pos == |data| ==> DecodeAt(data, pos).Panics?
    ensures pos < |data| && data[pos] > 1 ==> DecodeAt(data, pos).Panics?
  {
  }

  /** The decoder panics on a Block whose padding holds a non-zero byte. */
  lemma {:induction false} DecodeBlockPadPanics(data: seq<Byte>, pos: nat, z: nat, k: nat)
    requires pos + 1 < |data| && data[pos] == 0
    requires FirstZero(data, pos + 2) == Some(z)
    requires z + 1 <= k < z + 1 + Fill(z + 1 - pos) && k < |data| && data[k] != 0
    ensures DecodeAt(data, pos).Panics?
  {
    var fill := Fill(z + 1 - pos);
    if z + 1 + fill <= |data| {
      ZerosAtAllZero(data, z + 1, fill);
      assert data[z + 1..z + 1 + fill][k - z - 1] == data[k];
    }
  }

  /** A Block whose header checks pass decodes to its kind and the
      children behind the header. */
  lemma BlockDecodes(data: seq<Byte>, pos: nat, z: nat, at: nat, count: nat, children: seq<Atom>, end: nat)
    requires pos + 1 < |data| && FirstZero(data, pos + 2) == Some(z)
    requires at == z + 1 + Fill(z + 1 - pos) && count == data[pos + 1]
    requires at <= |data| && ZerosAt(data, z + 1, Fill(z + 1 - pos))
    requires ChildrenAt(data, at, count) == Returns((children, end))
    ensures DecodeBlockAt(data, pos) == Returns((Block(data[pos + 2..z], children), end))
    ensures data[pos] == 0 ==> DecodeAt(data, pos) == Returns((Block(data[pos + 2..z], children), end))
  {
  }

  /** A Block whose padding is short or not zero, or whose children panic,
      panics. */
  lemma BlockStops(data: seq<Byte>, pos: nat, z: nat)
    requires pos + 1 < |data| && FirstZero(data, pos + 2) == Some(z)
    requires
      || !(z + 1 + Fill(z + 1 - pos) <= |data| && ZerosAt(data, z + 1, Fill(z + 1 - pos)))
      || ChildrenAt(data, z + 1 + Fill(z + 1 - pos), data[pos + 1]).Panics?
    ensures DecodeBlockAt(data, pos).Panics?
  {
  }

  /** The collected children in front of what the rest of the loop yields. */
  function PrependAt(children: seq<Atom>, r: Outcome<(seq<Atom>, nat)>): Outcome<(seq<Atom>, nat)> {
    match r
    case Panics => Panics
    case Returns((others, end)) => Returns((children + others, end))
  }

  lemma PrependAtTwice(children: seq<Atom>, child: Atom, r: Outcome<(seq<Atom>, nat)>)
    ensures PrependAt(children, PrependAt([child], r)) == PrependAt(children + [child], r)
  {
    if r.Returns? {
      AppendAssoc(children, [child], r.value.0);
    }
  }

  lemma PrependAtNothing(r: Outcome<(seq<Atom>, nat)>)
    ensures PrependAt([], r) == r
  {
    if r.Returns? {
      AppendEmpty(r.value.0);
    }
  }

  /** A `&mut impl Iterator<Item = u8>` over a byte sequence. */
  class ByteIterator {
    const data: seq<Byte>
    var pos: nat

    ghost predicate Valid()
      reads this
    {
      pos <= |data|
    }

    constructor (data: seq<Byte>)
      ensures this.data == data && pos == 0 && Valid()
    {
      this.data := data;
      pos := 0;
    }

    /** `next`: the byte at the cursor, or `None` at the end. */
    method Next() returns (b: Option<Byte>)
      requires Valid()
      modifies this
      ensures Valid()
      ensures old(pos) < |data| ==> b == Some(data[old(pos)]) && pos == old(pos) + 1
      ensures old(pos) == |data| ==> b.None? && pos == old(pos)
    {
      if pos == |data| {
        return None;
      }
      b := Some(data[pos]);
      pos := pos + 1;
    }
  }

  /** The kind loop of `Atom::from`: bytes up to the first zero, which is
      consumed and counted but not kept. */
  method ReadKind(it: ByteIterator, counter: nat) returns (kind: Option<seq<Byte>>, counterAfter: nat)
    requires it.Valid()
    modifies it
    ensures it.Valid()
    ensures FirstZero(it.data, old(it.pos)).None? ==> kind.None?
    ensures FirstZero(it.data, old(it.pos)).Some? ==>
      var z := FirstZero(it.data, old(it.pos)).value;
      kind == Some(it.data[old(it.pos)..z]) && it.pos == z + 1 && counterAfter == counter + (z + 1 - old(it.pos))
  {
    var start := it.pos;
    var bytes: seq<Byte> := [];
    counterAfter := counter;
    while true
      invariant it.Valid() && start <= it.pos
      invariant bytes == it.data[start..it.pos]
      invariant counterAfter == counter + (it.pos - start)
      invariant FirstZero(it.data, start) == FirstZero(it.data, it.pos)
      decreases |it.data| - it.pos
    {
      var byte := it.Next();
      if byte.None? {
        return None, counterAfter;
      }
      counterAfter := counterAfter + 1;
      if byte.value == 0 {
        return Some(bytes), counterAfter;
      }
      bytes := bytes + [byte.value];
    }
  }

  /** A padding loop of `Atom::from`: `fill` bytes that must all be zero. */
  method SkipPadding(it: ByteIterator, fill: nat) returns (ok: bool)
    requires it.Valid()
    modifies it
    ensures it.Valid()
    ensures ok <==> old(it.pos) + fill <= |it.data| && ZerosAt(it.data, old(it.pos), fill)
    ensures ok ==> it.pos == old(it.pos) + fill
  {
    var start := it.pos;
    for i := 0 to fill
      invariant it.Valid() && it.pos == start + i
      invariant ZerosAt(it.data, start, i)
    {
      var byte := it.Next();
      if byte.None? {
        return false;
      }
      if byte.value != 0 {
        if ZerosAt(it.data, start, fill) {
          ZerosAtPrefix(it.data, start, i + 1, fill);
        }
        return false;
      }
    }
    return true;
  }

  /** The length loop of a Bytes atom: seven bytes shifted in big-endian. */
  method ReadLength(it: ByteIterator) returns (length: Option<nat>)
    requires it.Valid()
    modifies it
    ensures it.Valid()
    ensures length.Some? <==> old(it.pos) + 7 <= |it.data|
    ensures length.Some? ==>
      length.value == FromBigEndian(it.data[old(it.pos)..old(it.pos) + 7]) && it.pos == old(it.pos) + 7
  {
    var start := it.pos;
    var value: nat := 0;
    for i := 0 to 7
      invariant it.Valid() && it.pos == start + i
      invariant value == FromBigEndian(it.data[start..it.pos])
    {
      var byte := it.Next();
      if byte.None? {
        return None;
      }
      assert it.data[start..it.pos] == it.data[start..it.pos - 1] + [byte.value];
      FromBigEndianSnoc(it.data[start..it.pos - 1], byte.value);
      value := value * 256 + byte.value;
    }
    return Some(value);
  }

  /** The payload loop of a Bytes atom: `length` bytes taken as they come. */
  method ReadPayload(it: ByteIterator, length: nat) returns (payload: Option<seq<Byte>>)
    requires it.Valid()
    modifies it
    ensures it.Valid()
    ensures payload.Some? <==> old(it.pos) + length <= |it.data|
    ensures payload.Some? ==> payload.value == it.data[old(it.pos)..old(it.pos) + length] && it.pos == old(it.pos) + length
  {
    var start := it.pos;
    var bytes: seq<Byte> := [];
    for i := 0 to length
      invariant it.Valid() && it.pos == start + i
      invariant bytes == it.data[start..it.pos]
    {
      var byte := it.Next();
      if byte.None? {
        return None;
      }
      bytes := bytes + [byte.value];
    }
    return Some(bytes);
  }

  /** `Atom::from`: reads one atom, and a Block's children behind it, off
      the iterator, leaving it just behind the atom. */
  method From(it: ByteIterator) returns (r: Outcome<Atom>)
    requires it.Valid()
    modifies it
    ensures it.Valid()
    ensures DecodeAt(it.data, old(it.pos)).Panics? ==> r.Panics?
    ensures DecodeAt(it.data, old(it.pos)).Returns? ==>
      r == Returns(DecodeAt(it.data, old(it.pos)).value.0) && it.pos == DecodeAt(it.data, old(it.pos)).value.1
    decreases |it.data| - it.pos, 0
  {
    var start := it.pos;
    var tag := it.Next();
    if tag.None? {
      return Panics;
    }
    if tag.value == 0 {
      r := FromBlock(it, start);
    } else if tag.value == 1 {
      r := FromBytes(it, start);
    } else {
      return Panics;
    }
  }

  /** The tag-0 arm of `Atom::from`, entered just behind the tag at `start`. */
  method FromBlock(it: ByteIterator, start: nat) returns (r: Outcome<Atom>)
    requires it.Valid() && start < |it.data| && it.pos == start + 1
    modifies it
    ensures it.Valid()
    ensures DecodeBlockAt(it.data, start).Panics? ==> r.Panics?
    ensures DecodeBlockAt(it.data, start).Returns? ==>
      r == Returns(DecodeBlockAt(it.data, start).value.0) && it.pos == DecodeBlockAt(it.data, start).value.1
    decreases |it.data| - it.pos, 0
  {
    var counter := 1;
    var numChildren := it.Next();
    if numChildren.None? {
      return Panics;
    }
    counter := counter + 1;
    var kind;
    kind, counter := ReadKind(it, counter);
    if kind.None? {
      return Panics;
    }
    ghost var z := it.pos - 1;
    assert FirstZero(it.data, start + 2) == Some(z) && kind.value == it.data[start + 2..z];
    assert counter == z + 1 - start;
    var alignmentFill := Fill(counter);
    var ok := SkipPadding(it, alignmentFill);
    if !ok {
      BlockStops(it.data, start, z);
      return Panics;
    }
    ghost var childrenStart := it.pos;
    var children := ReadChildren(it, numChildren.value);
    if children.Panics? {
      BlockStops(it.data, start, z);
      return Panics;
    }
    BlockDecodes(it.data, start, z, childrenStart, numChildren.value, children.value, it.pos);
    return Returns(Block(kind.value, children.value));
  }

  /** The tag-1 arm of `Atom::from`, entered just behind the tag at `start`. */
  method FromBytes(it: ByteIterator, start: nat) returns (r: Outcome<Atom>)
    requires it.Valid() && start < |it.data| && it.pos == start + 1
    modifies it
    ensures it.Valid()
    ensures DecodeBytesAt(it.data, start).Panics? ==> r.Panics?
    ensures DecodeBytesAt(it.data, start).Returns? ==>
      r == Returns(DecodeBytesAt(it.data, start).value.0) && it.pos == DecodeBytesAt(it.data, start).value.1
  {
    var length := ReadLength(it);
    if length.None? {
      return Panics;
    }
    var payload := ReadPayload(it, length.value);
    if payload.None? {
      return Panics;
    }
    var alignmentFill := Fill(length.value);
    var ok := SkipPadding(it, alignmentFill);
    if !ok {
      return Panics;
    }
    return Returns(Bytes(payload.value));
  }

  /** The children of a Block, each read where the previous one ended. */
  method ReadChildren(it: ByteIterator, count: nat) returns (r: Outcome<seq<Atom>>)
    requires it.Valid()
    modifies it
    ensures it.Valid()
    ensures ChildrenAt(it.data, old(it.pos), count).Panics? ==> r.Panics?
    ensures ChildrenAt(it.data, old(it.pos), count).Returns? ==>
      r == Returns(ChildrenAt(it.data, old(it.pos), count).value.0) && it.pos == ChildrenAt(it.data, old(it.pos), count).value.1
    decreases |it.data| - it.pos, 1
  {
    var start := it.pos;
    var children: seq<Atom> := [];
    PrependAtNothing(ChildrenAt(it.data, start, count));
    for i := 0 to count
      invariant it.Valid() && start <= it.pos
      invariant ChildrenAt(it.data, start, count) == PrependAt(children, ChildrenAt(it.data, it.pos, count - i))
    {
      var before := it.pos;
      var child := From(it);
      if child.Panics? {
        return Panics;
      }
      PrependAtTwice(children, child.value, ChildrenAt(it.data, it.pos, count - i - 1));
      children := children + [child.value];
    }
    AppendEmpty(children);
    return Returns(children);
  }

  // ---------------------------------------------------------------------
  // The round trip.

  /** `s` sits in `data` at `pos`, byte by byte. */
  predicate At(data: seq<Byte>, pos: nat, s: seq<Byte>)
    decreases |s|
  {
    pos + |s| <= |data| && (s == [] || (data[pos] == s[0] && At(data, pos + 1, s[1..])))
  }

  lemma {:induction false} AtSlice(data: seq<Byte>, pos: nat, s: seq<Byte>)
    ensures At(data, pos, s) <==> pos + |s| <= |data| && data[pos..pos + |s|] == s
    decreases |s|
  {
    if s != [] && pos + |s| <= |data| {
      AtSlice(data, pos + 1, s[1..]);
      assert data[pos..pos + |s|] == [data[pos]] + data[pos + 1..pos + |s|];
      assert s == [s[0]] + s[1..];
    }
  }

  lemma AtSplit(data: seq<Byte>, pos: nat, s: seq<Byte>, t: seq<Byte>, mid: nat)
    requires mid == pos + |s| && At(data, pos, s + t)
    ensures At(data, pos, s) && At(data, mid, t)
  {
    AtSlice(data, pos, s + t);
    AtSlice(data, pos, s);
    AtSlice(data, pos + |s|, t);
    assert data[pos..pos + |s|] == (s + t)[..|s|];
    assert data[pos + |s|..pos + |s| + |t|] == (s + t)[|s|..];
  }

  lemma {:induction false} FirstZeroAt(data: seq<Byte>, pos: nat, kind: seq<Byte>)
    requires At(data, pos, kind + [0])
    requires 0 !in kind
    ensures FirstZero(data, pos) == Some(pos + |kind|)
    decreases kind
  {
    AtSlice(data, pos, kind + [0]);
    assert data[pos] == (kind + [0])[0];
    if kind != [] {
      assert kind + [0] == [kind[0]] + (kind[1..] + [0]);
      AtSplit(data, pos, [kind[0]], kind[1..] + [0], pos + 1);
      FirstZeroAt(data, pos + 1, kind[1..]);
    }
  }

  /** The seven length bytes behind the tag of an encoded Bytes atom. */
  lemma SevenByteLength(n: Byte)
    ensures FromBigEndian([0, 0, 0, 0, 0, 0, n]) == n
  {
    Pow256Values();
    ToBigEndianPadded(n, 1, 6);
    FromToBigEndian(n, 7);
    assert Zeros(6) + ToBigEndian(n, 1) == [0, 0, 0, 0, 0, 0, n];
  }

  /** Whole words do not change the fill. */
  lemma FillWord(n: nat)
    ensures Fill(8 + n) == Fill(n)
  {
    assert (8 + n) % 8 == n % 8;
  }

  /** A Bytes atom whose length and padding checks pass decodes to the
      payload behind its header. */
  lemma BytesDecodes(data: seq<Byte>, pos: nat, payload: seq<Byte>, fill: nat)
    requires pos + 8 <= |data| && data[pos] == 1
    requires FromBigEndian(data[pos + 1..pos + 8]) == |payload| && fill == Fill(|payload|)
    requires pos + 8 + |payload| + fill <= |data| && data[pos + 8..pos + 8 + |payload|] == payload
    requires ZerosAt(data, pos + 8 + |payload|, fill)
    ensures DecodeBytesAt(data, pos) == Returns((Bytes(payload), pos + 8 + |payload| + fill))
  {
  }

  /** The header of an encoded Bytes atom: tag 1 and a length that reads
      back as `n`. */
  lemma BytesHeaderAt(data: seq<Byte>, pos: nat, n: Byte)
    requires At(data, pos, [1, 0, 0, 0, 0, 0, 0, n])
    ensures pos + 8 <= |data| && data[pos] == 1
    ensures FromBigEndian(data[pos + 1..pos + 8]) == n
  {
    var head: seq<Byte> := [1, 0, 0, 0, 0, 0, 0, n];
    AtSlice(data, pos, head);
    assert data[pos] == head[0];
    assert data[pos + 1..pos + 8] == head[1..] == [0, 0, 0, 0, 0, 0, n];
    SevenByteLength(n);
  }

  /** Encoded padding is zero padding. */
  lemma ZerosAtOf(data: seq<Byte>, at: nat, fill: nat)
    requires At(data, at, Zeros(fill))
    ensures at + fill <= |data| && ZerosAt(data, at, fill)
  {
    AtSlice(data, at, Zeros(fill));
    ZerosAtAllZero(data, at, fill);
  }

  /** Where the parts of an encoded Bytes atom sit. */
  lemma BytesLayoutAt(data: seq<Byte>, pos: nat, payload: seq<Byte>)
    requires |payload| < 256 && At(data, pos, BytesEncoding(payload))
    ensures At(data, pos, [1, 0, 0, 0, 0, 0, 0, |payload|])
    ensures At(data, pos + 8, payload)
    ensures At(data, pos + 8 + |payload|, Zeros(Fill(|payload|)))
  {
    var n := |payload|;
    var head: seq<Byte> := [1, 0, 0, 0, 0, 0, 0, n];
    var fill := Fill(n);
    FillWord(n);
    assert BytesEncoding(payload) == head + payload + Zeros(fill);
    AtSplit(data, pos, head + payload, Zeros(fill), pos + 8 + n);
    AtSplit(data, pos, head, payload, pos + 8);
  }

  /** What the decoder finds at `pos` for a Bytes atom with this payload:
      tag 1, the length, the payload and zero padding. */
  predicate PayloadLaid(data: seq<Byte>, pos: nat, payload: seq<Byte>) {
    && pos + 8 + |payload| + Fill(|payload|) <= |data|
    && data[pos] == 1 && FromBigEndian(data[pos + 1..pos + 8]) == |payload|
    && data[pos + 8..pos + 8 + |payload|] == payload
    && ZerosAt(data, pos + 8 + |payload|, Fill(|payload|))
  }

  /** The parts of an encoded Bytes atom are what the decoder looks for. */
  lemma PayloadAt(data: seq<Byte>, pos: nat, payload: seq<Byte>)
    requires |payload| < 256 && At(data, pos, [1, 0, 0, 0, 0, 0, 0, |payload|])
    requires At(data, pos + 8, payload) && At(data, pos + 8 + |payload|, Zeros(Fill(|payload|)))
    ensures PayloadLaid(data, pos, payload)
  {
    ZerosAtOf(data, pos + 8 + |payload|, Fill(|payload|));
    AtSlice(data, pos + 8, payload);
    BytesHeaderAt(data, pos, |payload|);
  }

  /** Bytes laid out as the decoder expects decode to their payload and
      stop behind the padding. */
  lemma RoundTripBytes(data: seq<Byte>, pos: nat, payload: seq<Byte>)
    requires PayloadLaid(data, pos, payload)
    ensures DecodeAt(data, pos) == Returns((Bytes(payload), pos + Size(Bytes(payload))))
  {
    BytesDecodes(data, pos, payload, Fill(|payload|));
  }

  /** What the decoder finds at `pos` for a Block header with this kind
      and child count: tag 0, the count, the kind up to its first zero and
      zero padding. */
  predicate HeaderLaid(data: seq<Byte>, pos: nat, kind: seq<Byte>, count: nat) {
    && pos + HeaderSize(kind) <= |data|
    && data[pos] == 0 && data[pos + 1] == count
    && FirstZero(data, pos + 2) == Some(pos + 2 + |kind|)
    && data[pos + 2..pos + 2 + |kind|] == kind
    && ZerosAt(data, pos + 3 + |kind|, Fill(3 + |kind|))
  }

  /** An encoded Block header passes the decoder's header checks. */
  lemma RoundTripBlockHeader(data: seq<Byte>, pos: nat, kind: seq<Byte>, count: Byte)
    requires At(data, pos, BlockHeader(kind, count)) && 0 !in kind
    ensures HeaderLaid(data, pos, kind, count)
  {
    var z := pos + 2 + |kind|;
    var start := [0, count] + kind + [0];
    var fill := Fill(z + 1 - pos);
    assert |start| == z + 1 - pos;
    assert BlockHeader(kind, count) == start + Zeros(fill);
    AtSplit(data, pos, start, Zeros(fill), z + 1);
    assert start == [0, count] + (kind + [0]);
    AtSplit(data, pos, [0, count], kind + [0], pos + 2);
    AtSlice(data, pos, [0, count]);
    assert data[pos] == 0 && data[pos + 1] == count by {
      assert data[pos..pos + 2][0] == data[pos] && data[pos..pos + 2][1] == data[pos + 1];
    }
    AtSplit(data, pos + 2, kind, [0], z);
    AtSlice(data, pos + 2, kind);
    FirstZeroAt(data, pos + 2, kind);
    ZerosAtOf(data, z + 1, fill);
  }

  /** The length of a Block header with this kind. */
  function HeaderSize(kind: seq<Byte>): nat {
    3 + |kind| + Fill(3 + |kind|)
  }

  /** The length of an atom's bytes, from its structure. */
  function Size(a: Atom): nat
    decreases a, 1
  {
    match a
    case Block(kind, children) => HeaderSize(kind) + SizeAll(children)
    case Bytes(payload) => 8 + |payload| + Fill(|payload|)
  }

  function SizeAll(atoms: seq<Atom>): nat
    decreases atoms, 0
  {
    if atoms == [] then 0 else Size(atoms[0]) + SizeAll(atoms[1..])
  }

  /** Every part of the atom's tree sits in `data` where the decoder looks
      for it, the children of a Block one after another behind its
      header. */
  predicate Laid(data: seq<Byte>, pos: nat, a: Atom)
    decreases a, 1
  {
    match a
    case Block(kind, children) =>
      && |children| < 256
      && HeaderLaid(data, pos, kind, |children|)
      && LaidAll(data, pos + HeaderSize(kind), children)
    case Bytes(payload) => PayloadLaid(data, pos, payload)
  }

  predicate LaidAll(data: seq<Byte>, pos: nat, atoms: seq<Atom>)
    decreases atoms, 0
  {
    atoms == [] || (Laid(data, pos, atoms[0]) && LaidAll(data, pos + Size(atoms[0]), atoms[1..]))
  }

  /** The bytes of an atom are its parts laid out one after another. */
  lemma {:induction false} EncodingLaid(data: seq<Byte>, pos: nat, a: Atom)
    requires Encodable(a) && ZeroFreeKinds(a) && At(data, pos, Encoding(a))
    ensures |Encoding(a)| == Size(a) && Laid(data, pos, a)
    decreases a, 1
  {
    match a
    case Block(kind, children) =>
      EncodingBlockLaid(data, pos, kind, children);
    case Bytes(payload) =>
      EncodingBytesLaid(data, pos, payload);
  }

  lemma {:induction false} EncodingBlockLaid(data: seq<Byte>, pos: nat, kind: seq<Byte>, children: seq<Atom>)
    requires |children| < 256 && AllEncodable(children) && 0 !in kind && AllZeroFreeKinds(children)
    requires At(data, pos, BlockHeader(kind, |children|) + EncodingAll(children))
    ensures |Encoding(Block(kind, children))| == Size(Block(kind, children)) && Laid(data, pos, Block(kind, children))
    decreases children, 2
  {
    var header := BlockHeader(kind, |children|);
    assert |header| == HeaderSize(kind);
    AtSplit(data, pos, header, EncodingAll(children), pos + HeaderSize(kind));
    RoundTripBlockHeader(data, pos, kind, |children|);
    EncodingAllLaid(data, pos + HeaderSize(kind), children);
  }

  lemma EncodingBytesLaid(data: seq<Byte>, pos: nat, payload: seq<Byte>)
    requires |payload| < 256 && At(data, pos, BytesEncoding(payload))
    ensures |Encoding(Bytes(payload))| == Size(Bytes(payload)) && Laid(data, pos, Bytes(payload))
  {
    FillWord(|payload|);
    BytesLayoutAt(data, pos, payload);
    PayloadAt(data, pos, payload);
  }

  lemma {:induction false} EncodingAllLaid(data: seq<Byte>, pos: nat, atoms: seq<Atom>)
    requires AllEncodable(atoms) && AllZeroFreeKinds(atoms) && At(data, pos, EncodingAll(atoms))
    ensures |EncodingAll(atoms)| == SizeAll(atoms) && LaidAll(data, pos, atoms)
    decreases atoms, 0
  {
    if atoms != [] {
      AllStep(atoms);
      var a := atoms[0];
      var rest := atoms[1..];
      AtSplit(data, pos, Encoding(a), EncodingAll(rest), pos + |Encoding(a)|);
      EncodingLaid(data, pos, a);
      EncodingAllLaid(data, pos + Size(a), rest);
      LaidStep(data, pos, atoms);
    }
  }

  /** The first child and the others, for each of the facts about a list
      of children. */
  lemma AllStep(atoms: seq<Atom>)
    requires atoms != [] && AllEncodable(atoms) && AllZeroFreeKinds(atoms)
    ensures Encodable(atoms[0]) && ZeroFreeKinds(atoms[0])
    ensures AllEncodable(atoms[1..]) && AllZeroFreeKinds(atoms[1..])
    ensures EncodingAll(atoms) == Encoding(atoms[0]) + EncodingAll(atoms[1..])
    ensures SizeAll(atoms) == Size(atoms[0]) + SizeAll(atoms[1..])
  {
  }

  lemma LaidStep(data: seq<Byte>, pos: nat, atoms: seq<Atom>)
    requires atoms != []
    ensures LaidAll(data, pos, atoms) <==> Laid(data, pos, atoms[0]) && LaidAll(data, pos + Size(atoms[0]), atoms[1..])
  {
  }

  /** Decoding an atom laid out at `pos`, whatever surrounds it, gives back
      the atom and stops exactly behind its bytes. */
  lemma {:induction false} RoundTrip(data: seq<Byte>, pos: nat, a: Atom)
    requires Laid(data, pos, a)
    ensures DecodeAt(data, pos) == Returns((a, pos + Size(a)))
    decreases a, 1
  {
    match a
    case Bytes(payload) =>
      RoundTripBytes(data, pos, payload);
    case Block(kind, children) =>
      RoundTripBlock(data, pos, kind, children);
  }

  lemma {:induction false} RoundTripBlock(data: seq<Byte>, pos: nat, kind: seq<Byte>, children: seq<Atom>)
    requires |children| < 256 && HeaderLaid(data, pos, kind, |children|)
    requires LaidAll(data, pos + HeaderSize(kind), children)
    ensures DecodeAt(data, pos) == Returns((Block(kind, children), pos + Size(Block(kind, children))))
    decreases children, 3
  {
    var at := pos + HeaderSize(kind);
    RoundTripChildren(data, at, children);
    HeaderDecodes(data, pos, kind, |children|, children, at + SizeAll(children));
  }

  /** A header laid out as the decoder expects, with the children behind
      it, decodes to the Block. */
  lemma HeaderDecodes(data: seq<Byte>, pos: nat, kind: seq<Byte>, count: nat, children: seq<Atom>, end: nat)
    requires HeaderLaid(data, pos, kind, count)
    requires ChildrenAt(data, pos + HeaderSize(kind), count) == Returns((children, end))
    ensures DecodeAt(data, pos) == Returns((Block(kind, children), end))
  {
    var z := pos + 2 + |kind|;
    assert z + 1 - pos == 3 + |kind|;
    BlockDecodes(data, pos, z, pos + HeaderSize(kind), count, children, end);
  }

  lemma {:induction false} RoundTripChildren(data: seq<Byte>, pos: nat, atoms: seq<Atom>)
    requires pos <= |data| && LaidAll(data, pos, atoms)
    ensures ChildrenAt(data, pos, |atoms|) == Returns((atoms, pos + SizeAll(atoms)))
    decreases atoms, 2
  {
    if atoms != [] {
      var others := atoms[1..];
      var next := pos + Size(atoms[0]);
      var end := next + SizeAll(others);
      RoundTrip(data, pos, atoms[0]);
      RoundTripChildren(data, next, others);
      assert |atoms| - 1 == |others|;
      ChildrenAtStep(data, pos, atoms, next, end);
    }
  }

  /** The first child decoded, then the others behind it. */
  lemma ChildrenAtStep(data: seq<Byte>, pos: nat, atoms: seq<Atom>, next: nat, end: nat)
    requires atoms != [] && pos <= |data| && DecodeAt(data, pos) == Returns((atoms[0], next))
    requires next <= |data| && ChildrenAt(data, next, |atoms| - 1) == Returns((atoms[1..], end))
    ensures ChildrenAt(data, pos, |atoms|) == Returns((atoms, end))
  {
    ConsHeadTail(atoms);
  }

  /** `Atom::from` of `to_bytes`: the atom, with every byte consumed. */
  lemma DecodeEncoding(a: Atom, rest: seq<Byte>)
    requires Encodable(a) && ZeroFreeKinds(a)
    ensures DecodeAt(Encoding(a) + rest, 0) == Returns((a, |Encoding(a)|))
  {
    var data := Encoding(a) + rest;
    assert data[0..|Encoding(a)|] == Encoding(a);
    AtSlice(data, 0, Encoding(a));
    EncodingLaid(data, 0, a);
    RoundTrip(data, 0, a);
  }

  /** A kind with a zero byte does not survive: the decoder stops the kind
      at that byte. */
  lemma AsWrittenZeroInKind()
    ensures var a := Block([7, 0, 7], []);
      Encodable(a) && DecodeAt(Encoding(a), 0) != Returns((a, |Encoding(a)|))
  {
    var a := Block([7, 0, 7], []);
    var data := Encoding(a);
    assert data[..8] == [0, 0, 7, 0, 7, 0, 0, 0];
    assert FirstZero(data, 3) == Some(3);
  }
}
