/** The ssss parser (src/ssss/parse.rs): the character-kind tokens become a
    body of text and blocks, where a block is a name followed by one or
    more braced bodies. */
module SsssParse {
  import opened Wrappers
  import opened Strings
  import opened MarkupScan

  datatype Element = Text(text: seq<char>) | Block(name: seq<char>, bodies: seq<seq<Element>>)

  type Body = seq<Element>

  /** The elements an optional one contributes to a body. */
  function Pushed(e: Option<Element>): seq<Element> {
    match e
    case None => []
    case Some(x) => [x]
  }

  /** The characters the loop of `parse_text` builds from the `i`-th token
      on: words as they are, whitespace as it is unless a newline follows
      (then "\n"), and a newline dropped unless whitespace follows (then
      both become one space).  A brace panics. */
  function TextFrom(ts: seq<Token>, i: nat): Outcome<seq<char>>
    requires i <= |ts|
    decreases |ts| - i
  {
    if i == |ts| then Returns([])
    else
      var t := ts[i];
      match t.kind
      case Open => Panics
      case Close => Panics
      case Word => Prefix(t.value, TextFrom(ts, i + 1))
      case Whitespace =>
        if i + 1 < |ts| && ts[i + 1].kind == Newline then Prefix("\n", TextFrom(ts, i + 1))
        else Prefix(t.value, TextFrom(ts, i + 1))
      case Newline =>
        if i + 1 < |ts| && ts[i + 1].kind == Whitespace then Prefix(" ", TextFrom(ts, i + 2))
        else TextFrom(ts, i + 1)
  }

  function Prefix(s: seq<char>, r: Outcome<seq<char>>): Outcome<seq<char>> {
    match r
    case Panics => Panics
    case Returns(t) => Returns(s + t)
  }

  predicate AllSpace(ts: seq<Token>) {
    forall i :: 0 <= i < |ts| ==> IsSpaceKind(ts[i].kind)
  }

  /** `parse_text`: nothing for no tokens or whitespace only, else the
      trimmed text. */
  function ParseText(ts: seq<Token>): Outcome<Option<Element>> {
    if ts == [] || AllSpace(ts) then Returns(None)
    else
      match TextFrom(ts, 0)
      case Panics => Panics
      case Returns(text) => Returns(Some(Text(Trim(text))))
  }

  /** `parse_text`'s loop over a peekable iterator of the tokens. */
  method ParseTextLoop(ts: seq<Token>) returns (r: Outcome<Option<Element>>)
    ensures r == ParseText(ts)
  {
    if |ts| == 0 || forall i :: 0 <= i < |ts| ==> IsSpaceKind(ts[i].kind) {
      return Returns(None);
    }
    var text: seq<char> := [];
    var i := 0;
    PrefixNothing(TextFrom(ts, 0));
    while i < |ts|
      invariant i <= |ts|
      invariant TextFrom(ts, 0) == Prefix(text, TextFrom(ts, i))
      decreases |ts| - i
    {
      var token := ts[i];
      i := i + 1;
      match token.kind
      case Open =>
        return Panics;
      case Close =>
        return Panics;
      case Word =>
        PrefixTwice(text, token.value, TextFrom(ts, i));
        text := text + token.value;
      case Whitespace =>
        if i < |ts| && ts[i].kind == Newline {
          PrefixTwice(text, "\n", TextFrom(ts, i));
          text := text + "\n";
        } else {
          PrefixTwice(text, token.value, TextFrom(ts, i));
          text := text + token.value;
        }
      case Newline =>
        if i < |ts| && ts[i].kind == Whitespace {
          i := i + 1;
          PrefixTwice(text, " ", TextFrom(ts, i));
          text := text + " ";
        }
    }
    Utils.AppendEmpty(text);
    return Returns(Some(Text(Trim(text))));
  }

  lemma PrefixNothing(r: Outcome<seq<char>>)
    ensures Prefix([], r) == r
  {
    if r.Returns? {
      assert [] + r.value == r.value;
    }
  }

  lemma PrefixTwice(s: seq<char>, t: seq<char>, r: Outcome<seq<char>>)
    ensures Prefix(s, Prefix(t, r)) == Prefix(s + t, r)
  {
    if r.Returns? {
      Utils.AppendAssoc(s, t, r.value);
    }
  }

  /** Where the last Word of the buffer is, if there is one. */
  function LastWord(buffer: seq<Token>): (r: Option<nat>)
    ensures r.None? ==> forall j :: 0 <= j < |buffer| ==> buffer[j].kind != Word
    ensures r.Some? ==>
      r.value < |buffer| && buffer[r.value].kind == Word && forall j :: r.value < j < |buffer| ==> buffer[j].kind != Word
  {
    if buffer == [] then None
    else if buffer[|buffer| - 1].kind == Word then Some(|buffer| - 1)
    else
      var r := LastWord(buffer[..|buffer| - 1]);
      assert forall j :: 0 <= j < |buffer| - 1 ==> buffer[..|buffer| - 1][j] == buffer[j];
      r
  }

  /** The block name of `parse_body`: the last Word of the buffer, and the
      tokens before it; the tokens behind it are dropped.  None when there
      is no Word, where `remove` panics. */
  function NameSplit(buffer: seq<Token>): (r: Option<(seq<char>, seq<Token>)>)
    ensures r.Some? <==> LastWord(buffer).Some?
    ensures r.Some? ==> r.value == (buffer[LastWord(buffer).value].value, buffer[..LastWord(buffer).value])
  {
    if buffer == [] then None
    else
      var n := |buffer| - 1;
      if buffer[n].kind == Word then Some((buffer[n].value, buffer[..n]))
      else
        var r := NameSplit(buffer[..n]);
        if r.Some? then
          var i := LastWord(buffer[..n]).value;
          assert buffer[..n][..i] == buffer[..i];
          r
        else r
  }

  /** The text of the buffer pushed onto the body, as `parse_body` does
      before it returns. */
  function Finish(buffer: seq<Token>, body: Body, at: nat): Outcome<(Body, nat)> {
    match ParseText(buffer)
    case Panics => Panics
    case Returns(text) => Returns((body + Pushed(text), at))
  }

  /** The loop of `parse_body` from the `pos`-th token on, with the tokens
      buffered and the body built so far: the body and the position after
      the Close that ends it, or after the last token. */
  function BodyFrom(ts: seq<Token>, pos: nat, buffer: seq<Token>, body: Body): (r: Outcome<(Body, nat)>)
    requires pos <= |ts|
    ensures r.Returns? ==> pos <= r.value.1 <= |ts|
    decreases |ts| - pos, 2
  {
    if pos == |ts| then Finish(buffer, body, |ts|)
    else
      var t := ts[pos];
      match t.kind
      case Close => Finish(buffer, body, pos + 1)
      case Open => OpenFrom(ts, pos, buffer, body)
      case _ => BodyFrom(ts, pos + 1, buffer + [t], body)
  }

  /** An Open token at `pos`: the block it opens, then the rest of the
      loop behind it. */
  function OpenFrom(ts: seq<Token>, pos: nat, buffer: seq<Token>, body: Body): (r: Outcome<(Body, nat)>)
    requires pos < |ts|
    ensures r.Returns? ==> pos < r.value.1 <= |ts|
    decreases |ts| - pos, 1
  {
    match OpenHead(ts, pos, buffer, body)
    case Panics => Panics
    case Returns((extended, next)) => BodyFrom(ts, next, [], extended)
  }

  /** The block an Open token at `pos` opens, named by the buffer, pushed
      onto the body after the buffer's text; and the position behind its
      last body. */
  function OpenHead(ts: seq<Token>, pos: nat, buffer: seq<Token>, body: Body): (r: Outcome<(Body, nat)>)
    requires pos < |ts|
    ensures r.Returns? ==> pos < r.value.1 <= |ts|
    decreases |ts| - pos, 0
  {
    match NameSplit(buffer)
    case None => Panics
    case Some((name, before)) =>
      match ParseText(before)
      case Panics => Panics
      case Returns(text) =>
        match BodyFrom(ts, pos + 1, [], [])
        case Panics => Panics
        case Returns((first, after)) =>
          match BodiesFrom(ts, after, [first])
          case Panics => Panics
          case Returns((bodies, next)) => Returns((body + Pushed(text) + [Block(name, bodies)], next))
  }

  /** The loop after a block's first body: whitespace is skipped, and every
      Open behind it starts one more body. */
  function BodiesFrom(ts: seq<Token>, pos: nat, bodies: seq<Body>): (r: Outcome<(seq<Body>, nat)>)
    requires pos <= |ts|
    ensures r.Returns? ==> pos <= r.value.1 <= |ts| && |r.value.0| >= |bodies| && r.value.0[..|bodies|] == bodies
    decreases |ts| - pos, 0
  {
    if pos < |ts| && IsSpaceKind(ts[pos].kind) then BodiesFrom(ts, pos + 1, bodies)
    else if pos < |ts| && ts[pos].kind == Open then
      match BodyFrom(ts, pos + 1, [], [])
      case Panics => Panics
      case Returns((b, after)) => BodiesFrom(ts, after, bodies + [b])
    else Returns((bodies, pos))
  }

  /** `skip_while(|token| token.kind.is_whitespace())`. */
  function SkipSpace(ts: seq<Token>): (r: seq<Token>)
    ensures |r| <= |ts| && r == ts[|ts| - |r|..]
    ensures r == [] || !IsSpaceKind(r[0].kind)
    ensures AllSpace(ts[..|ts| - |r|])
  {
    if ts != [] && IsSpaceKind(ts[0].kind) then
      var r := SkipSpace(ts[1..]);
      var n := |ts| - |r|;
      assert ts[..n] == [ts[0]] + ts[1..][..n - 1];
      AllSpaceCons(ts[0], ts[1..][..n - 1]);
      assert ts[1..][n - 1..] == ts[n..];
      r
    else ts
  }

  lemma AllSpaceCons(t: Token, rest: seq<Token>)
    requires IsSpaceKind(t.kind) && AllSpace(rest)
    ensures AllSpace([t] + rest)
  {
    assert forall i :: 1 <= i < |rest| + 1 ==> ([t] + rest)[i] == rest[i - 1];
  }

  /** `parse`: the body of the tokens after the leading whitespace. */
  function Parse(source: seq<char>): Outcome<Body> {
    match BodyFrom(SkipSpace(Scanned(source)), 0, [], [])
    case Panics => Panics
    case Returns((body, _)) => Returns(body)
  }

  /** The `Peekable<IntoIter<Token>>` the parser reads from: the tokens and
      how many of them were taken. */
  class TokenStream {
    const tokens: seq<Token>
    var pos: nat

    ghost predicate Valid()
      reads this
    {
      pos <= |tokens|
    }

    constructor (tokens: seq<Token>)
      ensures this.tokens == tokens && pos == 0 && Valid()
    {
      this.tokens := tokens;
      pos := 0;
    }

    /** `Iterator::next`. */
    method Next() returns (t: Option<Token>)
      requires Valid()
      modifies this
      ensures Valid()
      ensures old(pos) < |tokens| ==> t == Some(tokens[old(pos)]) && pos == old(pos) + 1
      ensures old(pos) == |tokens| ==> t == None && pos == old(pos)
    {
      if pos < |tokens| {
        t := Some(tokens[pos]);
        pos := pos + 1;
      } else {
        t := None;
      }
    }

    /** `Peekable::peek`. */
    method Peek() returns (t: Option<Token>)
      requires Valid()
      ensures t == if pos < |tokens| then Some(tokens[pos]) else None
    {
      if pos < |tokens| {
        t := Some(tokens[pos]);
      } else {
        t := None;
      }
    }
  }

  /** `parse_body`: reads tokens up to the Close that ends the body, or to
      the end, building the body; a nested Open parses the block's bodies
      from the same stream. */
  method ParseBody(state: TokenStream) returns (r: Outcome<Body>)
    requires state.Valid()
    modifies state
    ensures state.Valid()
    ensures var spec := BodyFrom(state.tokens, old(state.pos), [], []);
      && (spec.Panics? ==> r.Panics?)
      && (spec.Returns? ==> r == Returns(spec.value.0) && state.pos == spec.value.1)
    decreases |state.tokens| - state.pos, 0
  {
    ghost var ts := state.tokens;
    ghost var spec := BodyFrom(ts, state.pos, [], []);
    var buffer: seq<Token> := [];
    var body: Body := [];
    while true
      invariant state.Valid() && old(state.pos) <= state.pos
      invariant spec == BodyFrom(ts, state.pos, buffer, body)
      decreases |ts| - state.pos
    {
      ghost var at := state.pos;
      var next := state.Next();
      if next.None? {
        var text := ParseTextLoop(buffer);
        if text.Panics? {
          return Panics;
        }
        return Returns(body + Pushed(text.value));
      }
      var token := next.value;
      if token.kind == Close {
        var text := ParseTextLoop(buffer);
        if text.Panics? {
          return Panics;
        }
        return Returns(body + Pushed(text.value));
      } else if token.kind == Open {
        var r := ParseBlock(state, buffer, body);
        if r.Panics? {
          return Panics;
        }
        buffer := [];
        body := r.value;
      } else {
        buffer := buffer + [token];
      }
    }
  }

  /** The Open branch of `parse_body`: the name taken from the buffer, the
      text before it, then the block's first body and every further body
      behind whitespace. */
  method ParseBlock(state: TokenStream, buffer: seq<Token>, body: Body) returns (r: Outcome<Body>)
    requires state.Valid() && 0 < state.pos && state.tokens[state.pos - 1].kind == Open
    modifies state
    ensures state.Valid()
    ensures var spec := OpenHead(state.tokens, old(state.pos) - 1, buffer, body);
      && (spec.Panics? ==> r.Panics?)
      && (spec.Returns? ==> r == Returns(spec.value.0) && state.pos == spec.value.1)
    decreases |state.tokens| - state.pos, 1
  {
    var split := TakeName(buffer);
    if split.None? {
      return Panics;
    }
    var (name, rest) := split.value;
    var text := ParseTextLoop(rest);
    if text.Panics? {
      return Panics;
    }
    var first := ParseBody(state);
    if first.Panics? {
      return Panics;
    }
    var bodies := ParseBodies(state, [first.value]);
    if bodies.Panics? {
      return Panics;
    }
    return Returns(body + Pushed(text.value) + [Block(name, bodies.value)]);
  }

  /** The loop of `parse_body` that names a block: tokens are removed from
      the end of the buffer until a Word comes off. */
  method TakeName(buffer: seq<Token>) returns (r: Option<(seq<char>, seq<Token>)>)
    ensures r == NameSplit(buffer)
  {
    var rest := buffer;
    while true
      invariant NameSplit(rest) == NameSplit(buffer)
      decreases |rest|
    {
      if |rest| == 0 {
        return None;
      }
      var token := rest[|rest| - 1];
      rest := rest[..|rest| - 1];
      if token.kind == Word {
        return Some((token.value, rest));
      }
    }
  }

  /** The loop of `parse_body` after a block's first body: whitespace tokens
      are skipped, and an Open behind them starts one more body. */
  method ParseBodies(state: TokenStream, bodies: seq<Body>) returns (r: Outcome<seq<Body>>)
    requires state.Valid()
    modifies state
    ensures state.Valid()
    ensures var spec := BodiesFrom(state.tokens, old(state.pos), bodies);
      && (spec.Panics? ==> r.Panics?)
      && (spec.Returns? ==> r == Returns(spec.value.0) && state.pos == spec.value.1)
    decreases |state.tokens| - state.pos, 0
  {
    ghost var ts := state.tokens;
    ghost var spec := BodiesFrom(ts, state.pos, bodies);
    var all := bodies;
    while true
      invariant state.Valid() && old(state.pos) <= state.pos
      invariant spec == BodiesFrom(ts, state.pos, all)
      decreases |ts| - state.pos
    {
      var peek := state.Peek();
      while peek.Some? && IsSpaceKind(peek.value.kind)
        invariant state.Valid() && old(state.pos) <= state.pos
        invariant spec == BodiesFrom(ts, state.pos, all)
        invariant peek == if state.pos < |ts| then Some(ts[state.pos]) else None
        decreases |ts| - state.pos
      {
        var _ := state.Next();
        peek := state.Peek();
      }
      if peek.Some? && peek.value.kind == Open {
        var _ := state.Next();
        var b := ParseBody(state);
        if b.Panics? {
          return Panics;
        }
        all := all + [b.value];
      } else {
        return Returns(all);
      }
    }
  }

  /** `parse`: scans, skips the leading whitespace tokens and parses one
      body from the rest. */
  method ParseSource(source: seq<char>) returns (r: Outcome<Body>)
    ensures r == Parse(source)
  {
    var tokens := Scan(source);
    var i := 0;
    while i < |tokens| && IsSpaceKind(tokens[i].kind)
      invariant i <= |tokens| && SkipSpace(tokens) == SkipSpace(tokens[i..])
    {
      assert tokens[i..][1..] == tokens[i + 1..];
      i := i + 1;
    }
    var state := new TokenStream(tokens[i..]);
    r := ParseBody(state);
  }

  /** No brace among the tokens. */
  predicate NoBraces(ts: seq<Token>) {
    forall i :: 0 <= i < |ts| ==> ts[i].kind != Open && ts[i].kind != Close
  }

  /** Each token holds characters of its own kind, as `scan` makes them. */
  predicate KindsHold(ts: seq<Token>) {
    forall i :: 0 <= i < |ts| ==> HasKind(ts[i])
  }

  /** The tokens of `scan`, with or without the leading whitespace, are of
      that shape. */
  lemma ScannedKindsHold(source: seq<char>)
    ensures KindsHold(Scanned(source)) && KindsHold(SkipSpace(Scanned(source)))
  {
    var ts := Scanned(source);
    forall i | 0 <= i < |ts|
      ensures HasKind(ts[i])
    {
      ScanToken(source, i);
    }
    var r := SkipSpace(ts);
    assert forall i :: 0 <= i < |r| ==> r[i] == ts[|ts| - |r| + i];
  }

  /** The suffix from `i` on is free of braces when its first token is not
      a brace and the rest is free of them. */
  lemma NoBracesAt(ts: seq<Token>, i: nat)
    requires i < |ts|
    ensures NoBraces(ts[i..]) <==> ts[i].kind != Open && ts[i].kind != Close && NoBraces(ts[i + 1..])
  {
    assert forall j :: 1 <= j < |ts[i..]| ==> ts[i..][j] == ts[i + 1..][j - 1];
  }

  lemma ValuesAt(ts: seq<Token>, i: nat)
    requires i < |ts|
    ensures Values(ts[i..]) == ts[i].value + Values(ts[i + 1..])
  {
    assert ts[i..][1..] == ts[i + 1..];
  }

  /** The loop of `parse_text` panics exactly when a brace is among the
      tokens it has yet to read. */
  lemma {:induction false} TextFromPanics(ts: seq<Token>, i: nat)
    requires i <= |ts|
    ensures TextFrom(ts, i).Panics? <==> !NoBraces(ts[i..])
    decreases |ts| - i
  {
    if i < |ts| {
      NoBracesAt(ts, i);
      TextFromPanics(ts, i + 1);
      if ts[i].kind == Newline && i + 1 < |ts| && ts[i + 1].kind == Whitespace {
        TextFromPanics(ts, i + 2);
        NoBracesAt(ts, i + 1);
      }
    }
  }

  /** What the loop of `parse_text` builds keeps every visible character
      of the tokens it reads, in order. */
  lemma {:induction false} TextFromVisible(ts: seq<Token>, i: nat)
    requires i <= |ts| && KindsHold(ts)
    ensures TextFrom(ts, i).Returns? ==> Visible(TextFrom(ts, i).value) == Visible(Values(ts[i..]))
    decreases |ts| - i
  {
    if i < |ts| && TextFrom(ts, i).Returns? {
      var t := ts[i];
      ValuesAt(ts, i);
      VisibleAppend(t.value, Values(ts[i + 1..]));
      if t.kind == Newline && i + 1 < |ts| && ts[i + 1].kind == Whitespace {
        TextFromVisible(ts, i + 2);
        ValuesAt(ts, i + 1);
        SpaceVisible(ts, i + 1);
        SpaceVisible(ts, i);
        VisibleAppend(ts[i + 1].value, Values(ts[i + 2..]));
        VisibleAppend(" ", TextFrom(ts, i + 2).value);
      } else {
        TextFromVisible(ts, i + 1);
        var text := TextFrom(ts, i + 1).value;
        if t.kind == Word {
          VisibleAppend(t.value, text);
        } else if t.kind == Whitespace {
          SpaceVisible(ts, i);
          VisibleAppend(t.value, text);
          VisibleAppend("\n", text);
        } else {
          SpaceVisible(ts, i);
        }
      }
    }
  }

  /** The characters of a whitespace or newline token are all whitespace. */
  lemma SpaceVisible(ts: seq<Token>, i: nat)
    requires KindsHold(ts) && i < |ts| && IsSpaceKind(ts[i].kind)
    ensures Visible(ts[i].value) == []
  {
    assert HasKind(ts[i]);
    VisibleOfWhitespace(ts[i].value);
  }

  /** `parse_text`: nothing for no tokens or whitespace tokens only, and a
      panic for a brace among other tokens. */
  lemma ParseTextCases(ts: seq<Token>)
    ensures ParseText(ts) == Returns(None) <==> ts == [] || AllSpace(ts)
    ensures ParseText(ts).Panics? <==> !AllSpace(ts) && !NoBraces(ts)
  {
    assert ts[0..] == ts;
    TextFromPanics(ts, 0);
  }

  /** The text `parse_text` returns neither starts nor ends with whitespace
      and keeps every visible character of the tokens, in order. */
  lemma ParseTextShape(ts: seq<Token>)
    requires KindsHold(ts)
    ensures ParseText(ts).Returns? && ParseText(ts).value.Some? ==>
      var text := ParseText(ts).value.value.text;
      && Trimmed(text)
      && Visible(text) == Visible(Values(ts))
  {
    if ParseText(ts).Returns? && ParseText(ts).value.Some? {
      ParseTextSome(ts);
      LoopVisible(ts);
      TrimmedShape(ParseText(ts).value.value, TextFrom(ts, 0).value, Values(ts));
    }
  }

  /** The loop of `parse_text` keeps the visible characters of all the
      tokens. */
  lemma LoopVisible(ts: seq<Token>)
    requires KindsHold(ts) && TextFrom(ts, 0).Returns?
    ensures Visible(TextFrom(ts, 0).value) == Visible(Values(ts))
  {
    TextFromVisible(ts, 0);
    assert ts[0..] == ts;
  }

  /** A text element holding a trimmed text has no whitespace at its
      ends and the visible characters of the text before trimming. */
  lemma TrimmedShape(e: Element, raw: seq<char>, v: seq<char>)
    requires e == Text(Trim(raw)) && Visible(raw) == Visible(v)
    ensures e.Text? && Trimmed(e.text)
    ensures e.Text? && Visible(e.text) == Visible(v)
  {
    TrimShape(raw, v);
  }

  /** A text `parse_text` returns is the trimmed text of its loop. */
  lemma ParseTextSome(ts: seq<Token>)
    requires ParseText(ts).Returns? && ParseText(ts).value.Some?
    ensures TextFrom(ts, 0).Returns? && ParseText(ts).value.value == Text(Trim(TextFrom(ts, 0).value))
  {
  }

  /** The block of an Open token is named by the last Word of the buffer,
      has at least one body, and comes after the text of the tokens before
      its name; with no Word in the buffer, `remove` panics. */
  lemma OpenHeadShape(ts: seq<Token>, pos: nat, buffer: seq<Token>, body: Body)
    requires pos < |ts|
    ensures LastWord(buffer).None? ==> OpenHead(ts, pos, buffer, body).Panics?
    ensures OpenHead(ts, pos, buffer, body).Returns? ==>
      var b := OpenHead(ts, pos, buffer, body).value.0;
      var i := LastWord(buffer).value;
      && |b| >= 1 && b[|b| - 1].Block? && |b[|b| - 1].bodies| >= 1
      && b[|b| - 1].name == buffer[i].value
      && ParseText(buffer[..i]).Returns?
      && b[..|b| - 1] == body + Pushed(ParseText(buffer[..i]).value)
  {
    var r := OpenHead(ts, pos, buffer, body);
    if r.Returns? {
      var b := r.value.0;
      assert b[..|b| - 1] == body + Pushed(ParseText(buffer[..LastWord(buffer).value]).value);
    }
  }

  /** On `a}b`, the Close ends the body after the text `a`: the word `b`
      behind it is not read. */
  lemma CloseEndsExample()
    ensures BodyFrom([Token(Word, "a", 0, 1), Token(Close, "}", 1, 2), Token(Word, "b", 2, 3)], 0, [], []) ==
      Returns(([Text("a")], 2))
  {
    var ts := [Token(Word, "a", 0, 1), Token(Close, "}", 1, 2), Token(Word, "b", 2, 3)];
    var buffer := [ts[0]];
    assert TextFrom(buffer, 1) == Returns([]);
    assert "a" + [] == "a";
    assert TextFrom(buffer, 0) == Returns("a");
    assert !AllSpace(buffer) by {
      assert !IsSpaceKind(buffer[0].kind);
    }
    TrimmedAlready("a");
    assert ParseText(buffer) == Returns(Some(Text("a")));
    assert Pushed(Some(Text("a"))) == [Text("a")];
    assert [] + [Text("a")] == [Text("a")];
    assert Finish(buffer, [], 2) == Returns(([Text("a")], 2));
    assert ts[1].kind == Close;
    assert BodyFrom(ts, 1, buffer, []) == Finish(buffer, [], 2);
    assert ts[0].kind == Word;
    assert [] + [ts[0]] == buffer;
    assert BodyFrom(ts, 0, [], []) == BodyFrom(ts, 1, buffer, []);
  }

  /** The loop after a block's first body skips a run of whitespace
      tokens.  Behind the run, an Open appends the body it starts (or
      panics when that body does), and any other token, or the end, stops
      the loop there with the bodies unchanged. */
  lemma {:induction false} BodiesFromCases(ts: seq<Token>, pos: nat, k: nat, bodies: seq<Body>, b: Body, after: nat)
    requires pos <= k <= |ts| && AllSpace(ts[pos..k])
    ensures k < |ts| && ts[k].kind == Open && BodyFrom(ts, k + 1, [], []) == Returns((b, after)) ==>
      BodiesFrom(ts, pos, bodies) == BodiesFrom(ts, after, bodies + [b])
    ensures k < |ts| && ts[k].kind == Open && BodyFrom(ts, k + 1, [], []).Panics? ==>
      BodiesFrom(ts, pos, bodies).Panics?
    ensures k == |ts| || (!IsSpaceKind(ts[k].kind) && ts[k].kind != Open) ==>
      BodiesFrom(ts, pos, bodies) == Returns((bodies, k))
    decreases k - pos
  {
    if pos < k {
      assert IsSpaceKind(ts[pos..k][0].kind);
      assert ts[pos + 1..k] == ts[pos..k][1..];
      BodiesFromCases(ts, pos + 1, k, bodies, b, after);
    }
  }

  /** A body without braces is the text of all its tokens, behind what
      the buffer holds. */
  lemma {:induction false} BodyOfText(ts: seq<Token>, pos: nat, buffer: seq<Token>, body: Body)
    requires pos <= |ts| && NoBraces(ts[pos..])
    ensures BodyFrom(ts, pos, buffer, body) == Finish(buffer + ts[pos..], body, |ts|)
    decreases |ts| - pos
  {
    if pos < |ts| {
      NoBracesAt(ts, pos);
      BodyOfText(ts, pos + 1, buffer + [ts[pos]], body);
      assert buffer + [ts[pos]] + ts[pos + 1..] == buffer + ts[pos..];
    } else {
      assert buffer + ts[pos..] == buffer;
    }
  }

  /** The two token lists agree on their first `n` tokens. */
  predicate Agree(ts: seq<Token>, us: seq<Token>, n: nat) {
    n <= |ts| && n <= |us| && forall i :: 0 <= i < n ==> ts[i] == us[i]
  }

  /** A body that starts at a token ends behind it. */
  lemma BodyFromAdvances(ts: seq<Token>, pos: nat, buffer: seq<Token>, body: Body)
    requires pos < |ts| && BodyFrom(ts, pos, buffer, body).Returns?
    ensures pos < BodyFrom(ts, pos, buffer, body).value.1
  {
  }

  /** A body that ends before the tokens run out ends behind a Close. */
  lemma {:induction false} BodyEndsAtClose(ts: seq<Token>, pos: nat, buffer: seq<Token>, body: Body, r: Body, e: nat)
    requires pos <= |ts| && BodyFrom(ts, pos, buffer, body) == Returns((r, e)) && e < |ts|
    ensures 0 < e && ts[e - 1].kind == Close
    decreases |ts| - pos
  {
    assert pos < |ts|;
    var t := ts[pos];
    if t.kind == Open {
      var (extended, next) := OpenHead(ts, pos, buffer, body).value;
      BodyEndsAtClose(ts, next, [], extended, r, e);
    } else if t.kind != Close {
      BodyEndsAtClose(ts, pos + 1, buffer + [t], body, r, e);
    }
  }

  /** The tokens `parse_body` reads for a body that ends at a Close are
      those before that Close's end: on any list that shares them, it
      parses the same. */
  lemma {:induction false} BodyFromAgree(ts: seq<Token>, us: seq<Token>, pos: nat, buffer: seq<Token>, body: Body)
    requires pos <= |ts| && BodyFrom(ts, pos, buffer, body).Returns?
    requires BodyFrom(ts, pos, buffer, body).value.1 < |ts|
    requires Agree(ts, us, BodyFrom(ts, pos, buffer, body).value.1)
    ensures pos <= |us| && BodyFrom(us, pos, buffer, body) == BodyFrom(ts, pos, buffer, body)
    decreases |ts| - pos, 2
  {
    assert pos < |ts|;
    BodyFromAdvances(ts, pos, buffer, body);
    assert us[pos] == ts[pos];
    var t := ts[pos];
    match t.kind
    case Close =>
    case Open =>
      OpenFromAgree(ts, us, pos, buffer, body);
    case _ =>
      BodyFromAgree(ts, us, pos + 1, buffer + [t], body);
  }

  lemma {:induction false} OpenFromAgree(ts: seq<Token>, us: seq<Token>, pos: nat, buffer: seq<Token>, body: Body)
    requires pos < |ts| && OpenFrom(ts, pos, buffer, body).Returns?
    requires OpenFrom(ts, pos, buffer, body).value.1 < |ts|
    requires Agree(ts, us, OpenFrom(ts, pos, buffer, body).value.1)
    ensures pos < |us| && OpenFrom(us, pos, buffer, body) == OpenFrom(ts, pos, buffer, body)
    decreases |ts| - pos, 1
  {
    var (extended, next) := OpenHead(ts, pos, buffer, body).value;
    BodyFromAdvances(ts, next, [], extended);
    OpenHeadAgree(ts, us, pos, buffer, body);
    BodyFromAgree(ts, us, next, [], extended);
  }

  lemma {:induction false} OpenHeadAgree(ts: seq<Token>, us: seq<Token>, pos: nat, buffer: seq<Token>, body: Body)
    requires pos < |ts| && OpenHead(ts, pos, buffer, body).Returns?
    requires OpenHead(ts, pos, buffer, body).value.1 < |ts|
    requires Agree(ts, us, OpenHead(ts, pos, buffer, body).value.1 + 1)
    ensures pos < |us| && OpenHead(us, pos, buffer, body) == OpenHead(ts, pos, buffer, body)
    decreases |ts| - pos, 0
  {
    var (first, after) := BodyFrom(ts, pos + 1, [], []).value;
    BodyFromAgree(ts, us, pos + 1, [], []);
    BodiesFromAgree(ts, us, after, [first]);
  }

  lemma {:induction false} BodiesFromAgree(ts: seq<Token>, us: seq<Token>, pos: nat, bodies: seq<Body>)
    requires pos <= |ts| && BodiesFrom(ts, pos, bodies).Returns?
    requires BodiesFrom(ts, pos, bodies).value.1 < |ts|
    requires Agree(ts, us, BodiesFrom(ts, pos, bodies).value.1 + 1)
    ensures pos <= |us| && BodiesFrom(us, pos, bodies) == BodiesFrom(ts, pos, bodies)
    decreases |ts| - pos, 0
  {
    assert us[pos] == ts[pos];
    if IsSpaceKind(ts[pos].kind) {
      BodiesFromAgree(ts, us, pos + 1, bodies);
    } else if ts[pos].kind == Open {
      var (b, after) := BodyFrom(ts, pos + 1, [], []).value;
      BodyFromAgree(ts, us, pos + 1, [], []);
      BodiesFromAgree(ts, us, after, bodies + [b]);
    }
  }

  /** A Close at the top ends the body: a body that ends before the tokens
      run out ends behind a Close, and the tokens after that Close are
      dropped, whatever they are. */
  lemma CloseEndsBody(ts: seq<Token>, pos: nat, buffer: seq<Token>, body: Body, more: seq<Token>)
    requires pos <= |ts| && BodyFrom(ts, pos, buffer, body).Returns?
    requires BodyFrom(ts, pos, buffer, body).value.1 < |ts|
    ensures var e := BodyFrom(ts, pos, buffer, body).value.1;
      && 0 < e && ts[e - 1].kind == Close
      && BodyFrom(ts[..e] + more, pos, buffer, body) == BodyFrom(ts, pos, buffer, body)
  {
    var e := BodyFrom(ts, pos, buffer, body).value.1;
    BodyEndsAtClose(ts, pos, buffer, body, BodyFrom(ts, pos, buffer, body).value.0, e);
    assert Agree(ts, ts[..e] + more, e);
    BodyFromAgree(ts, ts[..e] + more, pos, buffer, body);
  }

  /** Two words with whitespace, a newline and more whitespace between
      them. */
  const RulesTokens: seq<Token> := [Token(Word, "a", 0, 1), Token(Whitespace, "  ", 1, 3), Token(Newline, "\n", 3, 4),
                                    Token(Whitespace, " ", 4, 5), Token(Word, "b", 5, 6)]

  /** The rules of text: whitespace before a newline becomes one newline,
      and a newline with whitespace behind it becomes one space. */
  lemma TextRules()
    ensures TextFrom(RulesTokens, 0) == Returns("a\n b")
  {
    var ts := RulesTokens;
    assert TextFrom(ts, 5) == Returns([]);
    assert "b" + [] == "b";
    assert TextFrom(ts, 4) == Returns("b");
    assert ts[2].kind == Newline && ts[3].kind == Whitespace;
    assert " " + "b" == " b";
    assert TextFrom(ts, 2) == Returns(" b");
    assert ts[1].kind == Whitespace && ts[2].kind == Newline;
    assert "\n" + " b" == "\n b";
    assert TextFrom(ts, 1) == Returns("\n b");
    assert ts[0].kind == Word && ts[0].value == "a";
    assert "a" + "\n b" == "a\n b";
  }
}
