/** The flattening of a block tree into an id-indexed list
    (engine/src/flatten.rs): every node is stored at its id, and a node
    refers to its children by their ids.  A node comes first, the lists of
    its children after it, one after another. */
module Flattening {
  import opened Wrappers
  import opened Utils
  import B = Blocks

  /** `Id = usize`: an index into the flat list. */
  type Id = nat

  /** A node whose children are replaced by their ids.  An Unknown node
      keeps only its kind. */
  datatype FlatBlock =
    | Unknown(kind: U64)
    | Empty
    | Text(text: seq<Byte>)
    | Section(title: Id, body: Id)
    | DenseSequence(ids: seq<Id>)
    | SplitSequence(ids: seq<Id>)

  /** The ids a flat node refers to. */
  function Refs(f: FlatBlock): seq<Id> {
    match f
    case Section(title, body) => [title, body]
    case DenseSequence(ids) => ids
    case SplitSequence(ids) => ids
    case _ => []
  }

  /** The list `flatten(b, next)` returns: `b` stored at id `next`. */
  function FlatOf(b: B.Block, next: Id): seq<FlatBlock>
    decreases b, 1
  {
    match b
    case Unknown(kind, _) => [Unknown(kind)]
    case Empty => [Empty]
    case Text(text) => [Text(text)]
    case Section(title, body) =>
      var t := FlatOf(title, next + 1);
      [Section(next + 1, next + 1 + |t|)] + t + FlatOf(body, next + 1 + |t|)
    case DenseSequence(items) => [DenseSequence(FlatIds(items, next + 1))] + FlatBlocks(items, next + 1)
    case SplitSequence(items) => [SplitSequence(FlatIds(items, next + 1))] + FlatBlocks(items, next + 1)
  }

  /** The list half of `flatten_all(next)`: the items' lists, one after
      another. */
  function FlatBlocks(items: seq<B.Block>, next: Id): seq<FlatBlock>
    decreases items, 0
  {
    if items == [] then []
    else
      var first := FlatOf(items[0], next);
      first + FlatBlocks(items[1..], next + |first|)
  }

  /** The id half of `flatten_all(next)`: where each item is stored. */
  function FlatIds(items: seq<B.Block>, next: Id): seq<Id>
    decreases items, 0
  {
    if items == [] then [] else [next] + FlatIds(items[1..], next + |FlatOf(items[0], next)|)
  }

  /** `Flatten::flatten`. */
  method Flatten(b: B.Block, next: Id) returns (flat: seq<FlatBlock>)
    ensures flat == FlatOf(b, next)
    decreases b, 1
  {
    match b
    case Unknown(kind, _) =>
      flat := [Unknown(kind)];
    case Empty =>
      flat := [Empty];
    case Text(text) =>
      flat := [Text(text)];
    case Section(title, body) =>
      var t := Flatten(title, next + 1);
      var u := Flatten(body, next + 1 + |t|);
      flat := [Section(next + 1, next + 1 + |t|)];
      flat := flat + t;
      flat := flat + u;
    case DenseSequence(items) =>
      var ids, blocks := FlattenAll(items, next + 1);
      flat := [DenseSequence(ids)];
      flat := flat + blocks;
    case SplitSequence(items) =>
      var ids, blocks := FlattenAll(items, next + 1);
      flat := [SplitSequence(ids)];
      flat := flat + blocks;
  }

  /** `FlattenAll::flatten_all`: pushes the running id, appends the item's
      list and moves the id past it. */
  method FlattenAll(items: seq<B.Block>, next: Id) returns (ids: seq<Id>, flat: seq<FlatBlock>)
    ensures ids == FlatIds(items, next)
    ensures flat == FlatBlocks(items, next)
    decreases items, 0
  {
    var id := next;
    flat := [];
    ids := [];
    for i := 0 to |items|
      invariant id == next + |flat|
      invariant ids == FlatIds(items[..i], next)
      invariant flat == FlatBlocks(items[..i], next)
    {
      FlatSnoc(items, i, next);
      ids := ids + [id];
      var flattened := Flatten(items[i], id);
      flat := flat + flattened;
      id := id + |flattened|;
    }
    assert items[..|items|] == items;
  }

  /** Flattening a list of items one part after the other. */
  lemma {:induction false} FlatAppend(xs: seq<B.Block>, ys: seq<B.Block>, next: Id)
    ensures FlatBlocks(xs + ys, next) == FlatBlocks(xs, next) + FlatBlocks(ys, next + |FlatBlocks(xs, next)|)
    ensures FlatIds(xs + ys, next) == FlatIds(xs, next) + FlatIds(ys, next + |FlatBlocks(xs, next)|)
    decreases xs
  {
    if xs == [] {
      assert xs + ys == ys;
    } else {
      var first := FlatOf(xs[0], next);
      assert (xs + ys)[0] == xs[0];
      assert (xs + ys)[1..] == xs[1..] + ys;
      FlatAppend(xs[1..], ys, next + |first|);
      AppendAssoc(first, FlatBlocks(xs[1..], next + |first|), FlatBlocks(ys, next + |FlatBlocks(xs, next)|));
      AppendAssoc([next], FlatIds(xs[1..], next + |first|), FlatIds(ys, next + |FlatBlocks(xs, next)|));
    }
  }

  /** One more turn of the `flatten_all` loop. */
  lemma FlatSnoc(items: seq<B.Block>, i: nat, next: Id)
    requires i < |items|
    ensures var done := FlatBlocks(items[..i], next);
      && FlatIds(items[..i + 1], next) == FlatIds(items[..i], next) + [next + |done|]
      && FlatBlocks(items[..i + 1], next) == done + FlatOf(items[i], next + |done|)
  {
    assert items[..i + 1] == items[..i] + [items[i]];
    FlatAppend(items[..i], [items[i]], next);
    var at := next + |FlatBlocks(items[..i], next)|;
    assert [items[i]][1..] == [];
    AppendEmpty(FlatOf(items[i], at));
    AppendEmpty([at]);
  }

  /** The number of nodes of a tree; an Unknown node counts as a leaf. */
  function Size(b: B.Block): nat
    decreases b, 1
  {
    match b
    case Section(title, body) => 1 + Size(title) + Size(body)
    case DenseSequence(items) => 1 + SizeAll(items)
    case SplitSequence(items) => 1 + SizeAll(items)
    case _ => 1
  }

  function SizeAll(items: seq<B.Block>): nat
    decreases items, 0
  {
    if items == [] then 0 else Size(items[0]) + SizeAll(items[1..])
  }

  /** The list holds one node per node of the tree, wherever it is
      stored. */
  lemma {:induction false} FlatSize(b: B.Block, next: Id)
    ensures |FlatOf(b, next)| == Size(b)
    decreases b, 1
  {
    match b
    case Section(title, body) =>
      FlatSize(title, next + 1);
      FlatSize(body, next + 1 + Size(title));
    case DenseSequence(items) =>
      FlatAllSize(items, next + 1);
    case SplitSequence(items) =>
      FlatAllSize(items, next + 1);
    case _ =>
  }

  /** The node itself comes first, its children replaced by their ids. */
  lemma FlatHead(b: B.Block, next: Id)
    ensures FlatOf(b, next)[0] == match b
      case Unknown(kind, _) => Unknown(kind)
      case Empty => Empty
      case Text(text) => Text(text)
      case Section(title, body) => Section(next + 1, next + 1 + Size(title))
      case DenseSequence(items) => DenseSequence(FlatIds(items, next + 1))
      case SplitSequence(items) => SplitSequence(FlatIds(items, next + 1))
  {
    if b.Section? {
      FlatSize(b.title, next + 1);
    }
  }

  lemma {:induction false} FlatAllSize(items: seq<B.Block>, next: Id)
    ensures |FlatBlocks(items, next)| == SizeAll(items)
    ensures |FlatIds(items, next)| == |items|
    decreases items, 0
  {
    if items != [] {
      FlatSize(items[0], next);
      FlatAllSize(items[1..], next + Size(items[0]));
    }
  }

  /** A Section at id `k` stores its title at `k + 1` and its body right
      behind the title's list, and the list is the two lists behind it. */
  lemma SectionLayout(title: B.Block, body: B.Block, k: Id)
    ensures var t := FlatOf(title, k + 1);
      FlatOf(B.Section(title, body), k) == [Section(k + 1, k + 1 + |t|)] + t + FlatOf(body, k + 1 + |t|)
    ensures FlatOf(B.Section(title, body), k)[0] == Section(k + 1, k + 1 + Size(title))
  {
    FlatSize(title, k + 1);
  }

  /** `flatten_all` gives one id per item: the first is the given start, and
      each next one is the previous one moved past the previous item's
      list. */
  lemma {:induction false} FlatIdsSteps(items: seq<B.Block>, next: Id)
    ensures |FlatIds(items, next)| == |items|
    ensures items != [] ==> FlatIds(items, next)[0] == next
    ensures forall i :: 0 < i < |items| ==>
      FlatIds(items, next)[i] == FlatIds(items, next)[i - 1] + |FlatOf(items[i - 1], FlatIds(items, next)[i - 1])|
    decreases items
  {
    if items != [] {
      var ids := FlatIds(items, next);
      var rest := items[1..];
      var after := next + |FlatOf(items[0], next)|;
      FlatIdsSteps(rest, after);
      assert ids == [next] + FlatIds(rest, after);
      forall i | 1 < i < |items|
        ensures ids[i] == ids[i - 1] + |FlatOf(items[i - 1], ids[i - 1])|
      {
        assert ids[i] == FlatIds(rest, after)[i - 1];
        assert ids[i - 1] == FlatIds(rest, after)[i - 2];
        assert items[i - 1] == rest[i - 2];
      }
    }
  }

  /** Every id a node refers to lies strictly between `lo` and `hi`. */
  predicate RefsIn(f: FlatBlock, lo: nat, hi: nat) {
    forall j :: 0 <= j < |Refs(f)| ==> lo < Refs(f)[j] < hi
  }

  /** Every id stored in `flat`, a list that starts at id `base`, is larger
      than the id of the node holding it and smaller than the list's end. */
  predicate RefsWithin(flat: seq<FlatBlock>, base: nat) {
    forall k :: 0 <= k < |flat| ==> RefsIn(flat[k], base + k, base + |flat|)
  }

  lemma RefsInWiden(f: FlatBlock, lo: nat, hi: nat, hi': nat)
    requires RefsIn(f, lo, hi) && hi <= hi'
    ensures RefsIn(f, lo, hi')
  {
  }

  lemma RefsWithinJoin(s: seq<FlatBlock>, t: seq<FlatBlock>, base: nat)
    requires RefsWithin(s, base) && RefsWithin(t, base + |s|)
    ensures RefsWithin(s + t, base)
  {
    var st := s + t;
    forall k | 0 <= k < |st|
      ensures RefsIn(st[k], base + k, base + |st|)
    {
      if k >= |s| {
        assert st[k] == t[k - |s|];
      } else {
        assert st[k] == s[k];
        RefsInWiden(s[k], base + k, base + |s|, base + |st|);
      }
    }
  }

  lemma RefsWithinCons(h: FlatBlock, rest: seq<FlatBlock>, base: nat)
    requires RefsIn(h, base, base + 1 + |rest|)
    requires RefsWithin(rest, base + 1)
    ensures RefsWithin([h] + rest, base)
  {
    var f := [h] + rest;
    forall k | 0 <= k < |f|
      ensures RefsIn(f[k], base + k, base + |f|)
    {
      if k > 0 {
        assert f[k] == rest[k - 1];
      }
    }
  }

  /** The ids of `flatten_all(next)` lie inside the list it returns. */
  lemma {:induction false} FlatIdsRange(items: seq<B.Block>, next: Id)
    ensures forall i :: 0 <= i < |FlatIds(items, next)| ==>
      next <= FlatIds(items, next)[i] < next + |FlatBlocks(items, next)|
    decreases items
  {
    if items != [] {
      var first := FlatOf(items[0], next);
      FlatSize(items[0], next);
      FlatIdsRange(items[1..], next + |first|);
    }
  }

  /** Every stored id refers forward, into the list. */
  lemma {:induction false} FlatRefs(b: B.Block, next: Id)
    ensures RefsWithin(FlatOf(b, next), next)
    decreases b, 2
  {
    match b
    case Section(_, _) => SectionFlatRefs(b, next);
    case DenseSequence(_) => SequenceFlatRefs(b, next);
    case SplitSequence(_) => SequenceFlatRefs(b, next);
    case _ =>
  }

  lemma {:induction false} SectionFlatRefs(b: B.Block, next: Id)
    requires b.Section?
    ensures RefsWithin(FlatOf(b, next), next)
    decreases b, 1
  {
    var t := FlatOf(b.title, next + 1);
    var u := FlatOf(b.body, next + 1 + |t|);
    assert FlatOf(b, next) == [Section(next + 1, next + 1 + |t|)] + t + u;
    FlatRefs(b.title, next + 1);
    FlatRefs(b.body, next + 1 + |t|);
    FlatSize(b.body, next + 1 + |t|);
    SectionListRefs(t, u, next);
  }

  lemma {:induction false} SequenceFlatRefs(b: B.Block, next: Id)
    requires b.DenseSequence? || b.SplitSequence?
    ensures RefsWithin(FlatOf(b, next), next)
    decreases b, 1
  {
    var ids := FlatIds(b.items, next + 1);
    var h := if b.DenseSequence? then DenseSequence(ids) else SplitSequence(ids);
    assert FlatOf(b, next) == [h] + FlatBlocks(b.items, next + 1);
    FlatAllRefs(b.items, next + 1);
    FlatIdsRange(b.items, next + 1);
    RefsWithinCons(h, FlatBlocks(b.items, next + 1), next);
  }

  /** The list of a Section refers inside itself when its title's and its
      body's lists do. */
  lemma SectionListRefs(t: seq<FlatBlock>, u: seq<FlatBlock>, next: Id)
    requires RefsWithin(t, next + 1) && RefsWithin(u, next + 1 + |t|) && u != []
    ensures RefsWithin([Section(next + 1, next + 1 + |t|)] + t + u, next)
  {
    RefsWithinJoin(t, u, next + 1);
    RefsWithinCons(Section(next + 1, next + 1 + |t|), t + u, next);
    AppendAssoc([Section(next + 1, next + 1 + |t|)], t, u);
  }

  lemma {:induction false} FlatAllRefs(items: seq<B.Block>, next: Id)
    ensures RefsWithin(FlatBlocks(items, next), next)
    decreases items, 0
  {
    if items != [] {
      var first := FlatOf(items[0], next);
      FlatRefs(items[0], next);
      FlatAllRefs(items[1..], next + |first|);
      RefsWithinJoin(first, FlatBlocks(items[1..], next + |first|), next);
    }
  }

  /** Every stored id is larger than the index of the node holding it, so
      that `unflatten_at` only ever moves forward. */
  predicate Forward(flat: seq<FlatBlock>) {
    forall k :: 0 <= k < |flat| ==> RefsAbove(flat[k], k)
  }

  /** Every id a node refers to is larger than `lo`. */
  predicate RefsAbove(f: FlatBlock, lo: nat) {
    forall j :: 0 <= j < |Refs(f)| ==> lo < Refs(f)[j]
  }

  lemma ForwardAt(flat: seq<FlatBlock>, k: nat, j: nat)
    requires Forward(flat) && k < |flat| && j < |Refs(flat[k])|
    ensures k < Refs(flat[k])[j]
  {
    assert RefsAbove(flat[k], k);
  }

  /** A list that refers inside itself from id 0 on refers forward. */
  lemma WithinForward(flat: seq<FlatBlock>)
    requires RefsWithin(flat, 0)
    ensures Forward(flat)
  {
    forall k | 0 <= k < |flat|
      ensures RefsAbove(flat[k], k)
    {
      assert RefsIn(flat[k], k, |flat|);
    }
  }

  /** `unflatten_at`: the node at `index` with its children rebuilt from
      their ids, or a panic (`get(index).unwrap()`) for an index past the
      end.  An Unknown node comes back without children. */
  function UnflattenAt(flat: seq<FlatBlock>, index: Id): Outcome<B.Block>
    requires Forward(flat)
    decreases |flat| - index, 1, 0
  {
    if index >= |flat| then Panics
    else
      match flat[index]
      case Unknown(kind) => Returns(B.Unknown(kind, []))
      case Empty => Returns(B.Empty)
      case Text(text) => Returns(B.Text(text))
      case Section(title, body) =>
        ForwardAt(flat, index, 0);
        ForwardAt(flat, index, 1);
        (match (UnflattenAt(flat, title), UnflattenAt(flat, body))
         case (Returns(t), Returns(u)) => Returns(B.Section(t, u))
         case _ => Panics)
      case DenseSequence(ids) =>
        (match UnflattenChildren(flat, index, 0)
         case Returns(items) => Returns(B.DenseSequence(items))
         case Panics => Panics)
      case SplitSequence(ids) =>
        match UnflattenChildren(flat, index, 0)
        case Returns(items) => Returns(B.SplitSequence(items))
        case Panics => Panics
  }

  /** `unflatten_all` on the ids of the sequence node at `index`, from its
      `j`-th id on: each id unflattened in order, panicking if one does. */
  function UnflattenChildren(flat: seq<FlatBlock>, index: Id, j: nat): (r: Outcome<seq<B.Block>>)
    requires Forward(flat) && index < |flat| && j <= |Refs(flat[index])|
    ensures r.Returns? ==> |r.value| == |Refs(flat[index])| - j
    decreases |flat| - index, 0, |Refs(flat[index])| - j
  {
    var ids := Refs(flat[index]);
    if j == |ids| then Returns([])
    else
      ForwardAt(flat, index, j);
      match (UnflattenAt(flat, ids[j]), UnflattenChildren(flat, index, j + 1))
      case (Returns(first), Returns(others)) => Returns([first] + others)
      case _ => Panics
  }

  /** `unflatten`: the tree stored at id 0. */
  function Unflatten(flat: seq<FlatBlock>): Outcome<B.Block>
    requires Forward(flat)
  {
    UnflattenAt(flat, 0)
  }

  /** `unflatten_at` past the end of the list panics. */
  lemma UnflattenOutOfRange(flat: seq<FlatBlock>, index: Id)
    requires Forward(flat) && index >= |flat|
    ensures UnflattenAt(flat, index).Panics?
  {
  }

  /** The tree with the children of every Unknown node dropped: what a
      round trip through the flat list keeps. */
  function Strip(b: B.Block): B.Block
    decreases b, 1
  {
    match b
    case Unknown(kind, _) => B.Unknown(kind, [])
    case Section(title, body) => B.Section(Strip(title), Strip(body))
    case DenseSequence(items) => B.DenseSequence(StripAll(items))
    case SplitSequence(items) => B.SplitSequence(StripAll(items))
    case _ => b
  }

  function StripAll(items: seq<B.Block>): (r: seq<B.Block>)
    ensures |r| == |items|
    decreases items, 0
  {
    if items == [] then [] else [Strip(items[0])] + StripAll(items[1..])
  }

  /** No Unknown node of the tree has children. */
  predicate NoUnknownChildren(b: B.Block)
    decreases b, 1
  {
    match b
    case Unknown(_, children) => children == []
    case Section(title, body) => NoUnknownChildren(title) && NoUnknownChildren(body)
    case DenseSequence(items) => AllNoUnknownChildren(items)
    case SplitSequence(items) => AllNoUnknownChildren(items)
    case _ => true
  }

  predicate AllNoUnknownChildren(items: seq<B.Block>)
    decreases items, 0
  {
    items == [] || (NoUnknownChildren(items[0]) && AllNoUnknownChildren(items[1..]))
  }

  /** Dropping the children of Unknown nodes changes nothing in a tree that
      has none. */
  lemma {:induction false} StripKeeps(b: B.Block)
    requires NoUnknownChildren(b)
    ensures Strip(b) == b
    decreases b, 1
  {
    match b
    case Section(title, body) =>
      StripKeeps(title);
      StripKeeps(body);
    case DenseSequence(items) =>
      StripAllKeeps(items);
    case SplitSequence(items) =>
      StripAllKeeps(items);
    case _ =>
  }

  lemma {:induction false} StripAllKeeps(items: seq<B.Block>)
    requires AllNoUnknownChildren(items)
    ensures StripAll(items) == items
    decreases items, 0
  {
    if items != [] {
      StripKeeps(items[0]);
      StripAllKeeps(items[1..]);
      ConsHeadTail(items);
    }
  }

  /** `s` is stored in `flat` from index `at` on. */
  predicate StoredAt(flat: seq<FlatBlock>, at: nat, s: seq<FlatBlock>) {
    at + |s| <= |flat| && flat[at..at + |s|] == s
  }

  lemma StoredParts(flat: seq<FlatBlock>, at: nat, s: seq<FlatBlock>, t: seq<FlatBlock>)
    requires StoredAt(flat, at, s + t)
    ensures StoredAt(flat, at, s) && StoredAt(flat, at + |s|, t)
  {
    assert flat[at..at + |s|] == (s + t)[..|s|];
    assert flat[at + |s|..at + |s| + |t|] == (s + t)[|s|..];
  }

  /** Unflattening a tree's list wherever it is stored in a forward list
      gives back the tree without the children of its Unknown nodes. */
  lemma {:induction false} UnflattenStored(flat: seq<FlatBlock>, b: B.Block, at: Id)
    requires Forward(flat) && StoredAt(flat, at, FlatOf(b, at))
    ensures UnflattenAt(flat, at) == Returns(Strip(b))
    decreases b, 2
  {
    assert flat[at] == FlatOf(b, at)[0];
    match b
    case Section(_, _) => SectionStored(flat, b, at);
    case DenseSequence(_) => SequenceStored(flat, b, at);
    case SplitSequence(_) => SequenceStored(flat, b, at);
    case _ =>
  }

  lemma {:induction false} SectionStored(flat: seq<FlatBlock>, b: B.Block, at: Id)
    requires Forward(flat) && StoredAt(flat, at, FlatOf(b, at)) && b.Section?
    ensures UnflattenAt(flat, at) == Returns(Strip(b))
    decreases b, 1
  {
    var t := FlatOf(b.title, at + 1);
    SectionParts(flat, b, at);
    UnflattenStored(flat, b.title, at + 1);
    UnflattenStored(flat, b.body, at + 1 + |t|);
    SectionUnflattens(flat, at, Strip(b.title), Strip(b.body));
  }

  /** Where the parts of a stored Section list are. */
  lemma SectionParts(flat: seq<FlatBlock>, b: B.Block, at: Id)
    requires StoredAt(flat, at, FlatOf(b, at)) && b.Section?
    ensures var t := FlatOf(b.title, at + 1);
      && at < |flat| && flat[at] == Section(at + 1, at + 1 + |t|)
      && StoredAt(flat, at + 1, t) && StoredAt(flat, at + 1 + |t|, FlatOf(b.body, at + 1 + |t|))
  {
    var t := FlatOf(b.title, at + 1);
    var u := FlatOf(b.body, at + 1 + |t|);
    var h := Section(at + 1, at + 1 + |t|);
    assert FlatOf(b, at) == [h] + t + u;
    AppendAssoc([h], t, u);
    StoredParts(flat, at, [h], t + u);
    StoredParts(flat, at + 1, t, u);
  }

  lemma {:induction false} SequenceStored(flat: seq<FlatBlock>, b: B.Block, at: Id)
    requires Forward(flat) && StoredAt(flat, at, FlatOf(b, at)) && (b.DenseSequence? || b.SplitSequence?)
    ensures UnflattenAt(flat, at) == Returns(Strip(b))
    decreases b, 1
  {
    var ids := FlatIds(b.items, at + 1);
    var h := if b.DenseSequence? then DenseSequence(ids) else SplitSequence(ids);
    assert FlatOf(b, at) == [h] + FlatBlocks(b.items, at + 1);
    StoredParts(flat, at, [h], FlatBlocks(b.items, at + 1));
    assert flat[at] == h;
    UnflattenAllStored(flat, at, b.items, 0, at + 1);
    SequenceUnflattens(flat, at, StripAll(b.items));
  }

  /** A Section node whose title and body unflatten unflattens to the
      Section of the two. */
  lemma SectionUnflattens(flat: seq<FlatBlock>, at: Id, title: B.Block, body: B.Block)
    requires Forward(flat) && at < |flat| && flat[at].Section?
    requires UnflattenAt(flat, flat[at].title) == Returns(title)
    requires UnflattenAt(flat, flat[at].body) == Returns(body)
    ensures UnflattenAt(flat, at) == Returns(B.Section(title, body))
  {
  }

  /** A sequence node whose children unflatten unflattens to the sequence of
      the same kind. */
  lemma SequenceUnflattens(flat: seq<FlatBlock>, at: Id, items: seq<B.Block>)
    requires Forward(flat) && at < |flat| && (flat[at].DenseSequence? || flat[at].SplitSequence?)
    requires UnflattenChildren(flat, at, 0) == Returns(items)
    ensures flat[at].DenseSequence? ==> UnflattenAt(flat, at) == Returns(B.DenseSequence(items))
    ensures flat[at].SplitSequence? ==> UnflattenAt(flat, at) == Returns(B.SplitSequence(items))
  {
  }

  /** The ids of the sequence node at `index`, from the `j`-th on, are those
      of `items` stored from `next` on. */
  lemma {:induction false} UnflattenAllStored(flat: seq<FlatBlock>, index: Id, items: seq<B.Block>, j: nat, next: Id)
    requires Forward(flat) && index < |flat| && j <= |Refs(flat[index])|
    requires Refs(flat[index])[j..] == FlatIds(items, next)
    requires StoredAt(flat, next, FlatBlocks(items, next))
    ensures UnflattenChildren(flat, index, j) == Returns(StripAll(items))
    decreases items
  {
    FlatAllSize(items, next);
    if items != [] {
      var ids := Refs(flat[index]);
      var first := FlatOf(items[0], next);
      assert ids[j] == ids[j..][0] == next;
      assert ids[j + 1..] == ids[j..][1..];
      StoredParts(flat, next, first, FlatBlocks(items[1..], next + |first|));
      UnflattenStored(flat, items[0], next);
      UnflattenAllStored(flat, index, items[1..], j + 1, next + |first|);
    }
  }

  /** The round trip: the list `flatten(b, 0)` refers forward and inside
      itself, and `unflatten` of it is `b` without the children of its
      Unknown nodes. */
  lemma FlattenThenUnflatten(b: B.Block)
    ensures RefsWithin(FlatOf(b, 0), 0) && Forward(FlatOf(b, 0))
    ensures Unflatten(FlatOf(b, 0)) == Returns(Strip(b))
  {
    var flat := FlatOf(b, 0);
    FlatRefs(b, 0);
    WithinForward(flat);
    assert flat[0..|flat|] == flat;
    UnflattenStored(flat, b, 0);
  }

  /** For a tree without Unknown children the round trip is the identity. */
  lemma FlattenThenUnflattenExact(b: B.Block)
    requires NoUnknownChildren(b)
    ensures Forward(FlatOf(b, 0)) && Unflatten(FlatOf(b, 0)) == Returns(b)
  {
    FlattenThenUnflatten(b);
    StripKeeps(b);
  }
}
