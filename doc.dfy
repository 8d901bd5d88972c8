/** The document envelope (engine/src/doc.rs): an 8-byte header of the
    ASCII magic "SemDoc" and a big-endian `u16` version, followed by the
    bytes of the root tree's atoms.  The typed Block layer that the source
    converts to and from molecules is not part of this model: the document
    holds its root molecule directly. */
module Doc {
  import opened Wrappers
  import opened Utils
  import Atoms
  import Molecule
  import Memory

  /** `MAGIC_BYTES`, the ASCII bytes of "SemDoc". */
  const Magic: seq<Byte> := [0x53, 0x65, 0x6d, 0x44, 0x6f, 0x63]
  const Version: U16 := 0

  datatype SemDoc<E> = SemDoc(root: Molecule.Molecule<E>)

  datatype SemDocError = UnexpectedEnd | MagicBytesInvalid | UnknownVersion

  /** `VERSION.to_be_bytes()`. */
  function VersionBytes(): (bs: seq<Byte>)
    ensures |bs| == 2
  {
    ToBigEndian(Version, 2)
  }

  /** The bytes `to_bytes` writes: the header, then every atom's encoding in
      pre-order. */
  function Encoding<E>(doc: SemDoc<E>): seq<Byte>
    requires Molecule.Encodable(doc.root)
  {
    Magic + VersionBytes() + Molecule.Encoding(doc.root)
  }

  /** `to_bytes`: extends an empty vector with the magic, the version and,
      atom after atom, the bytes of `to_atoms`. */
  method ToBytes<E>(doc: SemDoc<E>) returns (bytes: seq<Byte>)
    requires Molecule.Encodable(doc.root)
    ensures bytes == Encoding(doc)
  {
    bytes := [];
    bytes := bytes + Magic;
    bytes := bytes + VersionBytes();
    var atoms := Molecule.ToAtoms(doc.root);
    Molecule.AtomsEncodable(doc.root);
    var body: seq<Byte> := [];
    for i := 0 to |atoms|
      invariant body == Atoms.ToBytesAll(atoms[..i])
    {
      AppendOne(atoms, i);
      body := body + Atoms.ToBytes(atoms[i]);
    }
    assert atoms[..|atoms|] == atoms;
    bytes := bytes + body;
  }

  /** One more atom's bytes behind the bytes of the atoms before it. */
  lemma AppendOne(atoms: seq<Atoms.Atom>, i: nat)
    requires i < |atoms| && forall j :: 0 <= j < |atoms| ==> Atoms.Encodable(atoms[j])
    ensures Atoms.ToBytesAll(atoms[..i + 1]) == Atoms.ToBytesAll(atoms[..i]) + Atoms.ToBytes(atoms[i])
  {
    assert atoms[..i + 1] == atoms[..i] + [atoms[i]];
    Atoms.ToBytesAllAppend(atoms[..i], [atoms[i]]);
    assert Atoms.ToBytesAll([atoms[i]]) == Atoms.ToBytes(atoms[i]) + Atoms.ToBytesAll([]);
  }

  /** The header, then the tree's bytes: "SemDoc", two zero version bytes,
      and everything after byte 8 the root's encoding, ending on a word
      boundary. */
  lemma EncodingLayout<E>(doc: SemDoc<E>)
    requires Molecule.Encodable(doc.root)
    ensures var bytes := Encoding(doc);
      && |bytes| >= 8 && |bytes| % 8 == 0
      && bytes[..6] == Magic
      && bytes[6..8] == [0, 0]
      && bytes[8..] == Molecule.Encoding(doc.root)
  {
    var bytes := Encoding(doc);
    Molecule.AtomsEncodable(doc.root);
    var body := Molecule.Encoding(doc.root);
    assert |body| % 8 == 0;
    assert VersionBytes() == [0, 0];
    assert bytes == (Magic + [0, 0]) + body;
    DropAppend(Magic + [0, 0], body);
    MultiplesAdd(8, |body|, 8);
  }

  /** `u16::from_be_bytes` of two bytes is the version 0 exactly when both
      are zero. */
  lemma VersionZero(bs: seq<Byte>)
    requires |bs| == 2
    ensures FromBigEndian(bs) == Version <==> bs == [0, 0]
  {
    assert bs[..1][..0] == [];
  }

  /** `from_bytes`: the three header checks in order, then the root tree
      decoded from the bytes behind the header.  A body that fails to decode
      is an `Error` tree inside the document, not an error of the call. */
  function FromBytes(bytes: seq<Byte>): Outcome<Result<SemDoc<Memory.MemoryError>, SemDocError>> {
    if |bytes| < 8 then Returns(Failure(UnexpectedEnd))
    else if bytes[..6] != Magic then Returns(Failure(MagicBytesInvalid))
    else if FromBigEndian(bytes[6..8]) != Version then Returns(Failure(UnknownVersion))
    else
      match Memory.From(bytes[8..])
      case Panics => Panics
      case Returns(root) => Returns(Success(SemDoc(root)))
  }

  /** Each header error exactly when its check is the first to fail; with a
      valid header the call returns the document around `MemoryMolecule::from`
      of the body, or panics as that does. */
  lemma FromBytesHeader(bytes: seq<Byte>)
    ensures FromBytes(bytes) == Returns(Failure(UnexpectedEnd)) <==> |bytes| < 8
    ensures FromBytes(bytes) == Returns(Failure(MagicBytesInvalid)) <==>
      |bytes| >= 8 && bytes[..6] != Magic
    ensures FromBytes(bytes) == Returns(Failure(UnknownVersion)) <==>
      |bytes| >= 8 && bytes[..6] == Magic && bytes[6..8] != [0, 0]
    ensures |bytes| >= 8 && bytes[..6] == Magic && bytes[6..8] == [0, 0] ==>
      && (FromBytes(bytes).Panics? <==> Memory.From(bytes[8..]).Panics?)
      && (FromBytes(bytes).Returns? ==>
            FromBytes(bytes) == Returns(Success(SemDoc(Memory.From(bytes[8..]).value))))
  {
    if |bytes| >= 8 {
      VersionZero(bytes[6..8]);
    }
  }

  /** `without_source_errors`: the document with a `Pure` root, or the
      first source error of the tree. */
  function WithoutSourceErrors<E>(doc: SemDoc<E>): (r: Result<SemDoc<Molecule.PureError>, E>)
    ensures r.Success? <==> Molecule.ErrorFree(doc.root)
    ensures r.Success? ==> r.value == SemDoc(Molecule.Cast(doc.root))
  {
    match Molecule.WithoutSourceErrors(doc.root)
    case Failure(e) => Failure(e)
    case Success(root) => Success(SemDoc(root))
  }

  /** Decoding the bytes of a document gives back its tree, now typed for
      the memory source. */
  lemma FromBytesEncoding<E>(doc: SemDoc<E>)
    requires Molecule.Encodable(doc.root)
    ensures Molecule.ErrorFree(doc.root)
    ensures FromBytes(Encoding(doc)) == Returns(Success(SemDoc(Molecule.Cast(doc.root))))
  {
    var bytes := Encoding(doc);
    EncodingLayout(doc);
    VersionZero(bytes[6..8]);
    Memory.RoundTrip(doc.root, []);
    AppendEmpty(Molecule.Encoding(doc.root));
  }

  /** The quickcheck property of the source: a `Pure` document survives
      `to_bytes`, `from_bytes` and `without_source_errors` unchanged. */
  lemma QuickcheckRoundTrip(doc: SemDoc<Molecule.PureError>)
    requires Molecule.Encodable(doc.root)
    ensures var r := FromBytes(Encoding(doc));
      r.Returns? && r.value.Success? && WithoutSourceErrors(r.value.value) == Success(doc)
  {
    FromBytesEncoding(doc);
    Molecule.CastRoundTrip<Molecule.PureError, Memory.MemoryError>(doc.root);
  }
}
