/** The generic molecule tree (engine/src/molecule.rs, engine/src/source.rs)
    and its pre-order flattening into atoms.  A `Source` is modelled by the
    type of error it can leave in a tree: `Pure` trees use `()`. */
module Molecule {
  import opened Wrappers
  import opened Utils
  import Atoms

  datatype Molecule<E> =
    | Bytes(bytes: seq<Byte>)
    | Block(kind: Atoms.AtomKind, children: seq<Molecule<E>>)
    | Error(error: E)

  /** The error type of the `Pure` source. */
  type PureError = ()

  /** No node of the tree is an `Error`. */
  predicate ErrorFree<E>(m: Molecule<E>) {
    match m
    case Bytes(_) => true
    case Block(_, children) => forall i :: 0 <= i < |children| ==> ErrorFree(children[i])
    case Error(_) => false
  }

  /** What `to_atoms` and `Atom::to_bytes` need to go through without a
      panic: no `Error` node (serialising one is `todo!`), every kind within
      six bytes and every payload length within seven (the assertions of
      `to_bytes`), and child counts that fit the `u64` the count is cast to. */
  predicate Encodable<E>(m: Molecule<E>) {
    match m
    case Bytes(bytes) => |bytes| <= Atoms.MaxValueUsing7Bytes
    case Block(kind, children) =>
      && kind <= Atoms.MaxValueUsing6Bytes
      && |children| < Pow256(8)
      && forall i :: 0 <= i < |children| ==> Encodable(children[i])
    case Error(_) => false
  }

  lemma {:induction false} EncodableIsErrorFree<E>(m: Molecule<E>)
    requires Encodable(m)
    ensures ErrorFree(m)
  {
    if m.Block? {
      forall i | 0 <= i < |m.children| ensures ErrorFree(m.children[i]) {
        EncodableIsErrorFree(m.children[i]);
      }
    }
  }

  lemma EncodableAllAreErrorFree<E>(ms: seq<Molecule<E>>)
    requires forall i :: 0 <= i < |ms| ==> Encodable(ms[i])
    ensures forall i :: 0 <= i < |ms| ==> ErrorFree(ms[i])
  {
    forall i | 0 <= i < |ms| ensures ErrorFree(ms[i]) {
      EncodableIsErrorFree(ms[i]);
    }
  }

  /** The one atom `to_atoms_into` pushes for a node itself: the compact form
      below 256 children or bytes, the full form otherwise. */
  function NodeAtom<E>(m: Molecule<E>): (a: Atoms.Atom)
    requires !m.Error?
    requires m.Block? ==> |m.children| < Pow256(8)
    ensures m.Block? <==> (a.Block? || a.SmallBlock?)
    ensures m.Block? ==> a.kind == m.kind && (a.SmallBlock? <==> |m.children| < 256)
    ensures m.Block? && a.SmallBlock? ==> a.count == |m.children|
    ensures m.Block? && a.Block? ==> a.numChildren == |m.children|
    ensures m.Bytes? ==> (a.Bytes? || a.FewBytes?) && a.payload == m.bytes
    ensures m.Bytes? ==> (a.FewBytes? <==> |m.bytes| < 256)
    ensures Encodable(m) ==> Atoms.Encodable(a)
  {
    match m
    case Block(kind, children) =>
      if |children| < 256 then Atoms.SmallBlock(kind, |children|)
      else Atoms.Block(kind, |children|)
    case Bytes(bytes) =>
      if |bytes| < 256 then Atoms.FewBytes(bytes) else Atoms.Bytes(bytes)
  }

  /** The atoms of a tree, in pre-order. */
  function AtomsOf<E>(m: Molecule<E>): seq<Atoms.Atom>
    requires Encodable(m)
    decreases m, 1
  {
    [NodeAtom(m)] + if m.Block? then AtomsOfAll(m.children) else []
  }

  /** The atoms of a sequence of sibling trees, one tree after the other. */
  function AtomsOfAll<E>(ms: seq<Molecule<E>>): seq<Atoms.Atom>
    requires forall i :: 0 <= i < |ms| ==> Encodable(ms[i])
    decreases ms, 0
  {
    if ms == [] then [] else AtomsOfAll(ms[..|ms| - 1]) + AtomsOf(ms[|ms| - 1])
  }

  lemma {:induction false} AtomsOfAllAppend<E>(ms: seq<Molecule<E>>, ns: seq<Molecule<E>>)
    requires forall i :: 0 <= i < |ms| ==> Encodable(ms[i])
    requires forall i :: 0 <= i < |ns| ==> Encodable(ns[i])
    ensures forall i :: 0 <= i < |ms + ns| ==> Encodable((ms + ns)[i])
    ensures AtomsOfAll(ms + ns) == AtomsOfAll(ms) + AtomsOfAll(ns)
  {
    assert forall i :: 0 <= i < |ms + ns| ==> Encodable((ms + ns)[i]) by {
      forall i | 0 <= i < |ms + ns| ensures Encodable((ms + ns)[i]) {
        if i >= |ms| { assert (ms + ns)[i] == ns[i - |ms|]; }
      }
    }
    if ns == [] {
      assert ms + ns == ms;
    } else {
      var init := ns[..|ns| - 1];
      AtomsOfAllAppend(ms, init);
      assert (ms + ns)[..|ms + ns| - 1] == ms + init;
    }
  }

  /** The first sibling's atoms come first. */
  lemma AtomsOfAllCons<E>(m: Molecule<E>, ms: seq<Molecule<E>>)
    requires Encodable(m) && forall i :: 0 <= i < |ms| ==> Encodable(ms[i])
    ensures forall i :: 0 <= i < |[m] + ms| ==> Encodable(([m] + ms)[i])
    ensures AtomsOfAll([m] + ms) == AtomsOf(m) + AtomsOfAll(ms)
  {
    AtomsOfAllAppend([m], ms);
    assert [m][..0] == [];
  }

  /** The number of nodes of a tree; every node is a Block or a Bytes leaf. */
  function NodeCount<E>(m: Molecule<E>): nat
    decreases m, 1
  {
    1 + if m.Block? then NodeCountOfAll(m.children) else 0
  }

  function NodeCountOfAll<E>(ms: seq<Molecule<E>>): nat
    decreases ms, 0
  {
    if ms == [] then 0 else NodeCountOfAll(ms[..|ms| - 1]) + NodeCount(ms[|ms| - 1])
  }

  /** One atom per node: `to_atoms` produces exactly as many atoms as the
      tree has Block and Bytes nodes, and the node's own atom comes first. */
  lemma {:induction false} AtomsCount<E>(m: Molecule<E>)
    requires Encodable(m)
    ensures |AtomsOf(m)| == NodeCount(m)
    ensures AtomsOf(m)[0] == NodeAtom(m)
    decreases m, 1
  {
    if m.Block? {
      AtomsOfAllCount(m.children);
    }
  }

  lemma {:induction false} AtomsOfAllCount<E>(ms: seq<Molecule<E>>)
    requires forall i :: 0 <= i < |ms| ==> Encodable(ms[i])
    ensures |AtomsOfAll(ms)| == NodeCountOfAll(ms)
    decreases ms, 0
  {
    if ms != [] {
      AtomsOfAllCount(ms[..|ms| - 1]);
      AtomsCount(ms[|ms| - 1]);
    }
  }

  /** Pre-order: a block's atom is directly followed by the atoms of its
      children, each child's atoms forming one contiguous run, in order. */
  lemma PreOrder<E>(kind: Atoms.AtomKind, first: Molecule<E>, others: seq<Molecule<E>>)
    requires Encodable(Block(kind, [first] + others))
    ensures Encodable(first) && forall i :: 0 <= i < |others| ==> Encodable(others[i])
    ensures AtomsOf(Block(kind, [first] + others)) ==
      [NodeAtom(Block(kind, [first] + others))] + AtomsOf(first) + AtomsOfAll(others)
  {
    var m := Block(kind, [first] + others);
    assert first == m.children[0];
    assert forall i :: 0 <= i < |others| ==> others[i] == m.children[i + 1];
    AtomsOfAllCons(first, others);
  }

  /** Every atom of an encodable tree is within the bounds `to_bytes`
      asserts. */
  lemma {:induction false} AtomsEncodable<E>(m: Molecule<E>)
    requires Encodable(m)
    ensures forall i :: 0 <= i < |AtomsOf(m)| ==> Atoms.Encodable(AtomsOf(m)[i])
    decreases m, 1
  {
    if m.Block? {
      AtomsOfAllEncodable(m.children);
    }
  }

  lemma {:induction false} AtomsOfAllEncodable<E>(ms: seq<Molecule<E>>)
    requires forall i :: 0 <= i < |ms| ==> Encodable(ms[i])
    ensures forall i :: 0 <= i < |AtomsOfAll(ms)| ==> Atoms.Encodable(AtomsOfAll(ms)[i])
    decreases ms, 0
  {
    if ms != [] {
      AtomsOfAllEncodable(ms[..|ms| - 1]);
      AtomsEncodable(ms[|ms| - 1]);
    }
  }

  /** `to_atoms`: flattens the tree into a fresh vector. */
  method ToAtoms<E>(m: Molecule<E>) returns (atoms: seq<Atoms.Atom>)
    requires Encodable(m)
    ensures atoms == AtomsOf(m)
    ensures |atoms| == NodeCount(m) && atoms[0] == NodeAtom(m)
  {
    atoms := ToAtomsInto(m, []);
    AtomsCount(m);
  }

  /** `to_atoms_into`: appends the node's atom and then, child by child, the
      atoms of its children, leaving what was already in the vector alone. */
  method ToAtomsInto<E>(m: Molecule<E>, output: seq<Atoms.Atom>) returns (result: seq<Atoms.Atom>)
    requires Encodable(m)
    ensures result == output + AtomsOf(m)
    decreases m
  {
    result := output + [NodeAtom(m)];
    if m.Block? {
      var children := m.children;
      for i := 0 to |children|
        invariant result == output + [NodeAtom(m)] + AtomsOfAll(children[..i])
      {
        assert children[..i + 1][..i] == children[..i];
        result := ToAtomsInto(children[i], result);
      }
      assert children[..|children|] == children;
    }
  }

  /** The bytes of an encodable tree: the encodings of its atoms in
      pre-order. */
  function Encoding<E>(m: Molecule<E>): seq<Byte>
    requires Encodable(m)
  {
    AtomsEncodable(m);
    Atoms.ToBytesAll(AtomsOf(m))
  }

  function EncodingOfAll<E>(ms: seq<Molecule<E>>): seq<Byte>
    requires forall i :: 0 <= i < |ms| ==> Encodable(ms[i])
  {
    AtomsOfAllEncodable(ms);
    Atoms.ToBytesAll(AtomsOfAll(ms))
  }

  /** A block's bytes are its own atom's encoding followed by its children's
      bytes; a leaf's bytes are its atom's encoding. */
  lemma EncodingSplit<E>(m: Molecule<E>)
    requires Encodable(m)
    ensures Atoms.Encodable(NodeAtom(m))
    ensures m.Block? ==> Encoding(m) == Atoms.ToBytes(NodeAtom(m)) + EncodingOfAll(m.children)
    ensures m.Bytes? ==> Encoding(m) == Atoms.ToBytes(NodeAtom(m))
  {
    AtomsEncodable(m);
    var a := NodeAtom(m);
    var atoms := AtomsOf(m);
    assert atoms[0] == a;
    if m.Block? {
      assert atoms[1..] == AtomsOfAll(m.children);
      AtomsOfAllEncodable(m.children);
    } else {
      assert atoms[1..] == [];
      assert Atoms.ToBytesAll(atoms) == Atoms.ToBytes(a) + Atoms.ToBytesAll([]);
    }
  }

  /** The siblings' bytes are the first sibling's bytes followed by the
      others'. */
  lemma EncodingOfAllCons<E>(ms: seq<Molecule<E>>)
    requires ms != [] && forall i :: 0 <= i < |ms| ==> Encodable(ms[i])
    ensures forall i :: 0 <= i < |ms[1..]| ==> Encodable(ms[1..][i])
    ensures EncodingOfAll(ms) == Encoding(ms[0]) + EncodingOfAll(ms[1..])
  {
    assert ms == [ms[0]] + ms[1..];
    AtomsOfAllCons(ms[0], ms[1..]);
    AtomsEncodable(ms[0]);
    AtomsOfAllEncodable(ms[1..]);
    Atoms.ToBytesAllAppend(AtomsOf(ms[0]), AtomsOfAll(ms[1..]));
  }

  // ---------------------------------------------------------------------
  // Changing the source of an error-free tree
  // ---------------------------------------------------------------------

  /** The same error-free tree, typed for another source. */
  function Cast<E, F>(m: Molecule<E>): (n: Molecule<F>)
    requires ErrorFree(m)
    ensures m.Block? ==> n.Block? && |n.children| == |m.children|
    decreases m, 1
  {
    match m
    case Bytes(bytes) => Bytes(bytes)
    case Block(kind, children) => Block(kind, CastAll(children))
  }

  function CastAll<E, F>(ms: seq<Molecule<E>>): (ns: seq<Molecule<F>>)
    requires forall i :: 0 <= i < |ms| ==> ErrorFree(ms[i])
    ensures |ns| == |ms|
    decreases ms, 0
  {
    if ms == [] then [] else CastAll(ms[..|ms| - 1]) + [Cast(ms[|ms| - 1])]
  }

  lemma {:induction false} CastAllIndex<E, F>(ms: seq<Molecule<E>>, i: nat)
    requires forall j :: 0 <= j < |ms| ==> ErrorFree(ms[j])
    requires i < |ms|
    ensures CastAll<E, F>(ms)[i] == Cast<E, F>(ms[i])
    decreases |ms|
  {
    if i < |ms| - 1 {
      CastAllIndex<E, F>(ms[..|ms| - 1], i);
    }
  }

  lemma {:induction false} CastAllCons<E, F>(ms: seq<Molecule<E>>)
    requires ms != [] && forall j :: 0 <= j < |ms| ==> ErrorFree(ms[j])
    ensures CastAll<E, F>(ms) == [Cast<E, F>(ms[0])] + CastAll<E, F>(ms[1..])
    decreases |ms|
  {
    if |ms| == 1 {
      assert ms[1..] == [] && ms[..0] == [];
    } else {
      var init, last := ms[..|ms| - 1], ms[|ms| - 1];
      InitOfTail(ms);
      CastAllCons<E, F>(init);
      AppendAssoc([Cast<E, F>(ms[0])], CastAll<E, F>(init[1..]), [Cast<E, F>(last)]);
    }
  }

  /** Casting keeps the tree error-free and casting back gives it back. */
  lemma {:induction false} CastRoundTrip<E, F>(m: Molecule<E>)
    requires ErrorFree(m)
    ensures ErrorFree(Cast<E, F>(m))
    ensures Cast<F, E>(Cast<E, F>(m)) == m
    decreases m, 1
  {
    if m.Block? {
      CastAllRoundTrip<E, F>(m.children);
    }
  }

  lemma {:induction false} CastAllRoundTrip<E, F>(ms: seq<Molecule<E>>)
    requires forall i :: 0 <= i < |ms| ==> ErrorFree(ms[i])
    ensures forall i :: 0 <= i < |ms| ==> ErrorFree(CastAll<E, F>(ms)[i])
    ensures CastAll<F, E>(CastAll<E, F>(ms)) == ms
    decreases ms, 0
  {
    if ms != [] {
      var init := ms[..|ms| - 1];
      CastAllRoundTrip<E, F>(init);
      CastRoundTrip<E, F>(ms[|ms| - 1]);
      var ns := CastAll<E, F>(ms);
      assert ns[..|ns| - 1] == CastAll<E, F>(init);
      assert forall i :: 0 <= i < |ms| ==> ErrorFree(ns[i]) by {
        forall i | 0 <= i < |ms| ensures ErrorFree(ns[i]) {
          if i < |ms| - 1 { assert ns[i] == ns[..|ns| - 1][i]; }
        }
      }
    }
  }

  /** Casting changes the type only: it keeps the tree encodable and its
      atoms. */
  lemma {:induction false} CastAtoms<E, F>(m: Molecule<E>)
    requires Encodable(m)
    ensures ErrorFree(m) && Encodable(Cast<E, F>(m)) && AtomsOf(Cast<E, F>(m)) == AtomsOf(m)
    decreases m, 1
  {
    EncodableIsErrorFree(m);
    if m.Block? {
      CastAllAtoms<E, F>(m.children);
    }
  }

  lemma {:induction false} CastAllAtoms<E, F>(ms: seq<Molecule<E>>)
    requires forall i :: 0 <= i < |ms| ==> Encodable(ms[i])
    ensures (forall i :: 0 <= i < |ms| ==> ErrorFree(ms[i]))
      && (forall i :: 0 <= i < |ms| ==> Encodable(CastAll<E, F>(ms)[i]))
      && AtomsOfAll(CastAll<E, F>(ms)) == AtomsOfAll(ms)
    decreases ms, 0
  {
    forall i | 0 <= i < |ms| ensures ErrorFree(ms[i]) {
      EncodableIsErrorFree(ms[i]);
    }
    if ms != [] {
      var init := ms[..|ms| - 1];
      CastAllAtoms<E, F>(init);
      CastAtoms<E, F>(ms[|ms| - 1]);
      var ns := CastAll<E, F>(ms);
      assert ns[..|ns| - 1] == CastAll<E, F>(init);
      forall i | 0 <= i < |ms| ensures Encodable(ns[i]) {
        if i < |ms| - 1 { assert ns[i] == ns[..|ns| - 1][i]; }
      }
    }
  }

  /** The first `Error` of the tree in pre-order, or the tree for a source
      that cannot fail (the `without_source_errors` that `?` gives at each
      level). */
  function WithoutSourceErrors<E>(m: Molecule<E>): (r: Result<Molecule<PureError>, E>)
    ensures r.Success? <==> ErrorFree(m)
    ensures r.Success? ==> r.value == Cast(m)
    decreases m, 1
  {
    match m
    case Bytes(bytes) => Success(Bytes(bytes))
    case Error(e) => Failure(e)
    case Block(kind, children) =>
      var rs := WithoutSourceErrorsAll(children);
      if rs.Failure? then Failure(rs.error) else Success(Block(kind, rs.value))
  }

  function WithoutSourceErrorsAll<E>(ms: seq<Molecule<E>>): (r: Result<seq<Molecule<PureError>>, E>)
    ensures r.Success? <==> forall i :: 0 <= i < |ms| ==> ErrorFree(ms[i])
    ensures r.Success? ==> r.value == CastAll(ms)
    decreases ms, 0
  {
    if ms == [] then Success([])
    else
      var init := WithoutSourceErrorsAll(ms[..|ms| - 1]);
      var last := WithoutSourceErrors(ms[|ms| - 1]);
      assert forall i :: 0 <= i < |ms| - 1 ==> ms[..|ms| - 1][i] == ms[i];
      if init.Failure? then Failure(init.error)
      else if last.Failure? then Failure(last.error)
      else Success(init.value + [last.value])
  }
}
