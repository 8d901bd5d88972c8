/** The parser of the markup front end (parser/src/parse.rs): the same
    character-kind tokens as the ssss parser, but a block is a name followed
    by exactly one braced content, and a newline never turns into a space.
    The token stream, the skipping of leading whitespace and the loop that
    takes a block's name are the same code in both parsers and are shared
    with SsssParse. */
module MarkupParse {
  import opened Wrappers
  import opened Strings
  import opened MarkupScan
  import S = SsssParse

  datatype Element = Text(text: seq<char>) | Block(name: seq<char>, content: seq<Element>)

  type Content = seq<Element>

  /** The elements an optional one contributes to a content list. */
  function Pushed(e: Option<Element>): seq<Element> {
    match e
    case None => []
    case Some(x) => [x]
  }

  /** The string `text_parts.join("")` gives from the `i`-th token on:
      words as they are, whitespace as it is unless a newline follows (then
      "\n"), and a newline dropped together with the whitespace behind it.
      A brace panics. */
  function TextFrom(ts: seq<Token>, i: nat): Outcome<seq<char>>
    requires i <= |ts|
    decreases |ts| - i
  {
    if i == |ts| then Returns([])
    else
      var t := ts[i];
      match t.kind
      case Open => Panics
      case Close => Panics
      case Word => S.Prefix(t.value, TextFrom(ts, i + 1))
      case Whitespace =>
        if i + 1 < |ts| && ts[i + 1].kind == Newline then S.Prefix("\n", TextFrom(ts, i + 1))
        else S.Prefix(t.value, TextFrom(ts, i + 1))
      case Newline =>
        if i + 1 < |ts| && ts[i + 1].kind == Whitespace then TextFrom(ts, i + 2)
        else TextFrom(ts, i + 1)
  }

  /** `parse_text`: nothing for no tokens or whitespace only, else the
      trimmed join of the parts. */
  function ParseText(ts: seq<Token>): Outcome<Option<Element>> {
    if ts == [] || S.AllSpace(ts) then Returns(None)
    else
      match TextFrom(ts, 0)
      case Panics => Panics
      case Returns(text) => Returns(Some(Text(Trim(text))))
  }

  /** `join("")` of the text parts. */
  function Join(parts: seq<seq<char>>): seq<char> {
    if parts == [] then [] else Join(parts[..|parts| - 1]) + parts[|parts| - 1]
  }

  lemma JoinSnoc(parts: seq<seq<char>>, p: seq<char>)
    ensures Join(parts + [p]) == Join(parts) + p
  {
    assert (parts + [p])[..|parts|] == parts;
  }

  /** `parse_text`'s loop over a peekable iterator of the tokens, pushing
      onto `text_parts`. */
  method ParseTextLoop(ts: seq<Token>) returns (r: Outcome<Option<Element>>)
    ensures r == ParseText(ts)
  {
    if |ts| == 0 || forall i :: 0 <= i < |ts| ==> IsSpaceKind(ts[i].kind) {
      return Returns(None);
    }
    var parts: seq<seq<char>> := [];
    var i := 0;
    S.PrefixNothing(TextFrom(ts, 0));
    while i < |ts|
      invariant i <= |ts|
      invariant TextFrom(ts, 0) == S.Prefix(Join(parts), TextFrom(ts, i))
      decreases |ts| - i
    {
      var token := ts[i];
      i := i + 1;
      match token.kind
      case Open =>
        return Panics;
      case Close =>
        return Panics;
      case Word =>
        S.PrefixTwice(Join(parts), token.value, TextFrom(ts, i));
        JoinSnoc(parts, token.value);
        parts := parts + [token.value];
      case Whitespace =>
        if i < |ts| && ts[i].kind == Newline {
          S.PrefixTwice(Join(parts), "\n", TextFrom(ts, i));
          JoinSnoc(parts, "\n");
          parts := parts + ["\n"];
        } else {
          S.PrefixTwice(Join(parts), token.value, TextFrom(ts, i));
          JoinSnoc(parts, token.value);
          parts := parts + [token.value];
        }
      case Newline =>
        if i < |ts| && ts[i].kind == Whitespace {
          i := i + 1;
        }
    }
    Utils.AppendEmpty(Join(parts));
    return Returns(Some(Text(Trim(Join(parts)))));
  }

  /** The text of the buffer pushed onto the content, as `parse_content`
      does before it returns. */
  function Finish(buffer: seq<Token>, content: Content, at: nat): Outcome<(Content, nat)> {
    match ParseText(buffer)
    case Panics => Panics
    case Returns(text) => Returns((content + Pushed(text), at))
  }

  /** The loop of `parse_content` from the `pos`-th token on, with the
      tokens buffered and the content built so far: the content and the
      position after the Close that ends it, or after the last token. */
  function ContentFrom(ts: seq<Token>, pos: nat, buffer: seq<Token>, content: Content): (r: Outcome<(Content, nat)>)
    requires pos <= |ts|
    ensures r.Returns? ==> pos <= r.value.1 <= |ts|
    decreases |ts| - pos, 2
  {
    if pos == |ts| then Finish(buffer, content, |ts|)
    else
      var t := ts[pos];
      match t.kind
      case Close => Finish(buffer, content, pos + 1)
      case Open => OpenFrom(ts, pos, buffer, content)
      case _ => ContentFrom(ts, pos + 1, buffer + [t], content)
  }

  /** An Open token at `pos`: the block it opens, then the rest of the
      loop behind it. */
  function OpenFrom(ts: seq<Token>, pos: nat, buffer: seq<Token>, content: Content): (r: Outcome<(Content, nat)>)
    requires pos < |ts|
    ensures r.Returns? ==> pos < r.value.1 <= |ts|
    decreases |ts| - pos, 1
  {
    match OpenHead(ts, pos, buffer, content)
    case Panics => Panics
    case Returns((extended, next)) => ContentFrom(ts, next, [], extended)
  }

  /** The block an Open token at `pos` opens, named by the buffer, pushed
      onto the content after the buffer's text; and the position behind
      the Close of its one content. */
  function OpenHead(ts: seq<Token>, pos: nat, buffer: seq<Token>, content: Content): (r: Outcome<(Content, nat)>)
    requires pos < |ts|
    ensures r.Returns? ==> pos < r.value.1 <= |ts|
    decreases |ts| - pos, 0
  {
    match S.NameSplit(buffer)
    case None => Panics
    case Some((name, before)) =>
      match ParseText(before)
      case Panics => Panics
      case Returns(text) =>
        match ContentFrom(ts, pos + 1, [], [])
        case Panics => Panics
        case Returns((children, next)) => Returns((content + Pushed(text) + [Block(name, children)], next))
  }

  /** `parse`: the content of the tokens after the leading whitespace. */
  function Parse(source: seq<char>): Outcome<Content> {
    match ContentFrom(S.SkipSpace(Scanned(source)), 0, [], [])
    case Panics => Panics
    case Returns((content, _)) => Returns(content)
  }

  /** `parse_content`: reads tokens up to the Close that ends the content,
      or to the end; a nested Open parses the block's content from the same
      stream. */
  method ParseContent(state: S.TokenStream) returns (r: Outcome<Content>)
    requires state.Valid()
    modifies state
    ensures state.Valid()
    ensures var spec := ContentFrom(state.tokens, old(state.pos), [], []);
      && (spec.Panics? ==> r.Panics?)
      && (spec.Returns? ==> r == Returns(spec.value.0) && state.pos == spec.value.1)
    decreases |state.tokens| - state.pos, 0
  {
    ghost var ts := state.tokens;
    ghost var spec := ContentFrom(ts, state.pos, [], []);
    var buffer: seq<Token> := [];
    var content: Content := [];
    while true
      invariant state.Valid() && old(state.pos) <= state.pos
      invariant spec == ContentFrom(ts, state.pos, buffer, content)
      decreases |ts| - state.pos
    {
      var next := state.Next();
      if next.None? {
        var text := ParseTextLoop(buffer);
        if text.Panics? {
          return Panics;
        }
        return Returns(content + Pushed(text.value));
      }
      var token := next.value;
      if token.kind == Close {
        var text := ParseTextLoop(buffer);
        if text.Panics? {
          return Panics;
        }
        return Returns(content + Pushed(text.value));
      } else if token.kind == Open {
        var r := ParseBlock(state, buffer, content);
        if r.Panics? {
          return Panics;
        }
        buffer := [];
        content := r.value;
      } else {
        buffer := buffer + [token];
      }
    }
  }

  /** The Open branch of `parse_content`: the name taken from the buffer,
      the text before it, then the block's content. */
  method ParseBlock(state: S.TokenStream, buffer: seq<Token>, content: Content) returns (r: Outcome<Content>)
    requires state.Valid() && 0 < state.pos && state.tokens[state.pos - 1].kind == Open
    modifies state
    ensures state.Valid()
    ensures var spec := OpenHead(state.tokens, old(state.pos) - 1, buffer, content);
      && (spec.Panics? ==> r.Panics?)
      && (spec.Returns? ==> r == Returns(spec.value.0) && state.pos == spec.value.1)
    decreases |state.tokens| - state.pos, 1
  {
    var split := S.TakeName(buffer);
    if split.None? {
      return Panics;
    }
    var (name, rest) := split.value;
    var text := ParseTextLoop(rest);
    if text.Panics? {
      return Panics;
    }
    var children := ParseContent(state);
    if children.Panics? {
      return Panics;
    }
    return Returns(content + Pushed(text.value) + [Block(name, children.value)]);
  }

  /** `parse`: scans, skips the leading whitespace tokens and parses one
      content list from the rest. */
  method ParseSource(source: seq<char>) returns (r: Outcome<Content>)
    ensures r == Parse(source)
  {
    var tokens := Scan(source);
    var i := 0;
    while i < |tokens| && IsSpaceKind(tokens[i].kind)
      invariant i <= |tokens| && S.SkipSpace(tokens) == S.SkipSpace(tokens[i..])
    {
      assert tokens[i..][1..] == tokens[i + 1..];
      i := i + 1;
    }
    var state := new S.TokenStream(tokens[i..]);
    r := ParseContent(state);
  }

  /** The string of the parts panics exactly when a brace is among the
      tokens it has yet to read. */
  lemma {:induction false} TextFromPanics(ts: seq<Token>, i: nat)
    requires i <= |ts|
    ensures TextFrom(ts, i).Panics? <==> !S.NoBraces(ts[i..])
    decreases |ts| - i
  {
    if i < |ts| {
      S.NoBracesAt(ts, i);
      TextFromPanics(ts, i + 1);
      if ts[i].kind == Newline && i + 1 < |ts| && ts[i + 1].kind == Whitespace {
        TextFromPanics(ts, i + 2);
        S.NoBracesAt(ts, i + 1);
      }
    }
  }

  /** The string of the parts keeps every visible character of the tokens
      it reads, in order. */
  lemma {:induction false} TextFromVisible(ts: seq<Token>, i: nat)
    requires i <= |ts| && S.KindsHold(ts)
    ensures TextFrom(ts, i).Returns? ==> Visible(TextFrom(ts, i).value) == Visible(Values(ts[i..]))
    decreases |ts| - i
  {
    if i < |ts| && TextFrom(ts, i).Returns? {
      if ts[i].kind == Newline && i + 1 < |ts| && ts[i + 1].kind == Whitespace {
        TextFromVisible(ts, i + 2);
        SkipVisible(ts, i);
      } else {
        TextFromVisible(ts, i + 1);
        StepVisible(ts, i);
      }
    }
  }

  /** A Newline with whitespace behind it adds no visible character. */
  lemma SkipVisible(ts: seq<Token>, i: nat)
    requires i + 2 <= |ts| && S.KindsHold(ts)
    requires ts[i].kind == Newline && ts[i + 1].kind == Whitespace
    requires TextFrom(ts, i + 2).Returns? ==> Visible(TextFrom(ts, i + 2).value) == Visible(Values(ts[i + 2..]))
    ensures TextFrom(ts, i).Returns? ==> Visible(TextFrom(ts, i).value) == Visible(Values(ts[i..]))
  {
    S.ValuesAt(ts, i);
    S.ValuesAt(ts, i + 1);
    VisibleAppend(ts[i].value, Values(ts[i + 1..]));
    VisibleAppend(ts[i + 1].value, Values(ts[i + 2..]));
    S.SpaceVisible(ts, i + 1);
    S.SpaceVisible(ts, i);
  }

  /** One token read on its own adds its visible characters. */
  lemma StepVisible(ts: seq<Token>, i: nat)
    requires i < |ts| && S.KindsHold(ts)
    requires !(ts[i].kind == Newline && i + 1 < |ts| && ts[i + 1].kind == Whitespace)
    requires TextFrom(ts, i + 1).Returns? ==> Visible(TextFrom(ts, i + 1).value) == Visible(Values(ts[i + 1..]))
    ensures TextFrom(ts, i).Returns? ==> Visible(TextFrom(ts, i).value) == Visible(Values(ts[i..]))
  {
    var t := ts[i];
    S.ValuesAt(ts, i);
    VisibleAppend(t.value, Values(ts[i + 1..]));
    if TextFrom(ts, i).Returns? {
      var text := TextFrom(ts, i + 1).value;
      if t.kind == Word {
        VisibleAppend(t.value, text);
      } else if t.kind == Whitespace {
        S.SpaceVisible(ts, i);
        VisibleAppend(t.value, text);
        VisibleAppend("\n", text);
      } else {
        S.SpaceVisible(ts, i);
      }
    }
  }

  /** A Newline token contributes no character: every newline of the
      string comes from whitespace standing before a Newline token, so
      there are fewer newlines than Newline tokens behind a Newline. */
  lemma {:induction false} TextFromNewlines(ts: seq<Token>, i: nat)
    requires i <= |ts| && S.KindsHold(ts)
    ensures TextFrom(ts, i).Returns? ==> Newlines(TextFrom(ts, i).value) <= NewlineTokens(ts[i..])
    ensures TextFrom(ts, i).Returns? && i < |ts| && ts[i].kind == Newline ==>
      Newlines(TextFrom(ts, i).value) < NewlineTokens(ts[i..])
    decreases |ts| - i
  {
    if i < |ts| && TextFrom(ts, i).Returns? {
      var t := ts[i];
      assert ts[i..][1..] == ts[i + 1..];
      if t.kind == Newline && i + 1 < |ts| && ts[i + 1].kind == Whitespace {
        TextFromNewlines(ts, i + 2);
        assert ts[i + 1..][1..] == ts[i + 2..];
      } else {
        TextFromNewlines(ts, i + 1);
        var text := TextFrom(ts, i + 1).value;
        if t.kind == Word {
          WordHasNoNewline(ts, i);
          NewlinesAppend(t.value, text);
        } else if t.kind == Whitespace {
          if i + 1 < |ts| && ts[i + 1].kind == Newline {
            NewlinesAppend("\n", text);
            assert ts[i + 1..][0] == ts[i + 1];
            assert Newlines("\n") == 1;
          } else {
            WhitespaceHasNoNewline(ts, i);
            NewlinesAppend(t.value, text);
          }
        }
      }
    }
  }

  /** The number of newline characters of a string. */
  function Newlines(s: seq<char>): nat {
    if s == [] then 0 else (if s[0] == '\n' then 1 else 0) + Newlines(s[1..])
  }

  /** The number of Newline tokens of a list. */
  function NewlineTokens(ts: seq<Token>): nat {
    if ts == [] then 0 else (if ts[0].kind == Newline then 1 else 0) + NewlineTokens(ts[1..])
  }

  lemma {:induction false} NewlinesAppend(s: seq<char>, t: seq<char>)
    ensures Newlines(s + t) == Newlines(s) + Newlines(t)
  {
    if s == [] {
      assert s + t == t;
    } else {
      assert (s + t)[1..] == s[1..] + t;
      NewlinesAppend(s[1..], t);
    }
  }

  lemma {:induction false} NoNewlineChar(s: seq<char>)
    requires forall j :: 0 <= j < |s| ==> s[j] != '\n'
    ensures Newlines(s) == 0
  {
    if s != [] {
      NoNewlineChar(s[1..]);
    }
  }

  lemma WordHasNoNewline(ts: seq<Token>, i: nat)
    requires S.KindsHold(ts) && i < |ts| && ts[i].kind == Word
    ensures Newlines(ts[i].value) == 0
  {
    assert HasKind(ts[i]);
    NoNewlineChar(ts[i].value);
  }

  lemma WhitespaceHasNoNewline(ts: seq<Token>, i: nat)
    requires S.KindsHold(ts) && i < |ts| && ts[i].kind == Whitespace
    ensures Newlines(ts[i].value) == 0
  {
    assert HasKind(ts[i]);
    NoNewlineChar(ts[i].value);
  }

  /** `parse_text`: nothing for no tokens or whitespace tokens only, and a
      panic for a brace among other tokens. */
  lemma ParseTextCases(ts: seq<Token>)
    ensures ParseText(ts) == Returns(None) <==> ts == [] || S.AllSpace(ts)
    ensures ParseText(ts).Panics? <==> !S.AllSpace(ts) && !S.NoBraces(ts)
  {
    assert ts[0..] == ts;
    TextFromPanics(ts, 0);
  }

  /** The text `parse_text` returns neither starts nor ends with whitespace
      and keeps every visible character of the tokens, in order. */
  lemma ParseTextShape(ts: seq<Token>)
    requires S.KindsHold(ts)
    ensures ParseText(ts).Returns? && ParseText(ts).value.Some? ==>
      var text := ParseText(ts).value.value.text;
      && Trimmed(text)
      && Visible(text) == Visible(Values(ts))
  {
    if ParseText(ts).Returns? && ParseText(ts).value.Some? {
      ParseTextSome(ts);
      LoopVisible(ts);
      TrimmedShape(ParseText(ts).value.value, TextFrom(ts, 0).value, Values(ts));
    }
  }

  /** The loop of `parse_text` keeps the visible characters of all the
      tokens. */
  lemma LoopVisible(ts: seq<Token>)
    requires S.KindsHold(ts) && TextFrom(ts, 0).Returns?
    ensures Visible(TextFrom(ts, 0).value) == Visible(Values(ts))
  {
    TextFromVisible(ts, 0);
    assert ts[0..] == ts;
  }

  /** A text element holding a trimmed text has no whitespace at its
      ends and the visible characters of the text before trimming. */
  lemma TrimmedShape(e: Element, raw: seq<char>, v: seq<char>)
    requires e == Text(Trim(raw)) && Visible(raw) == Visible(v)
    ensures e.Text? && Trimmed(e.text)
    ensures e.Text? && Visible(e.text) == Visible(v)
  {
    TrimShape(raw, v);
  }

  /** A text `parse_text` returns is the trimmed text of its loop. */
  lemma ParseTextSome(ts: seq<Token>)
    requires ParseText(ts).Returns? && ParseText(ts).value.Some?
    ensures TextFrom(ts, 0).Returns? && ParseText(ts).value.value == Text(Trim(TextFrom(ts, 0).value))
  {
  }

  /** The block of an Open token is named by the last Word of the buffer,
      holds the content read up to the matching Close, and comes after the
      text of the tokens before its name; with no Word in the buffer,
      `remove` panics. */
  lemma OpenHeadShape(ts: seq<Token>, pos: nat, buffer: seq<Token>, content: Content)
    requires pos < |ts|
    ensures S.LastWord(buffer).None? ==> OpenHead(ts, pos, buffer, content).Panics?
    ensures OpenHead(ts, pos, buffer, content).Returns? ==>
      var c := OpenHead(ts, pos, buffer, content).value.0;
      var i := S.LastWord(buffer).value;
      && |c| >= 1 && c[|c| - 1].Block?
      && c[|c| - 1].name == buffer[i].value
      && ContentFrom(ts, pos + 1, [], []).Returns?
      && c[|c| - 1].content == ContentFrom(ts, pos + 1, [], []).value.0
      && OpenHead(ts, pos, buffer, content).value.1 == ContentFrom(ts, pos + 1, [], []).value.1
      && ParseText(buffer[..i]).Returns?
      && c[..|c| - 1] == content + Pushed(ParseText(buffer[..i]).value)
  {
    var r := OpenHead(ts, pos, buffer, content);
    if r.Returns? {
      var c := r.value.0;
      assert c[..|c| - 1] == content + Pushed(ParseText(buffer[..S.LastWord(buffer).value]).value);
    }
  }

  /** Two words with whitespace, a newline and more whitespace between
      them. */
  const RulesTokens: seq<Token> := [Token(Word, "a", 0, 1), Token(Whitespace, "  ", 1, 3), Token(Newline, "\n", 3, 4),
                                    Token(Whitespace, " ", 4, 5), Token(Word, "b", 5, 6)]

  /** The newline rules: whitespace before a newline becomes one newline,
      and the newline itself goes together with the whitespace behind it. */
  lemma TextRules()
    ensures TextFrom(RulesTokens, 0) == Returns("a\nb")
  {
    var ts := RulesTokens;
    assert TextFrom(ts, 5) == Returns([]);
    assert "b" + [] == "b";
    assert TextFrom(ts, 4) == Returns("b");
    assert ts[2].kind == Newline && ts[3].kind == Whitespace;
    assert TextFrom(ts, 2) == Returns("b");
    assert ts[1].kind == Whitespace && ts[2].kind == Newline;
    assert "\n" + "b" == "\nb";
    assert TextFrom(ts, 1) == Returns("\nb");
    assert ts[0].kind == Word && ts[0].value == "a";
    assert "a" + "\nb" == "a\nb";
  }

  /** Two words with a newline between them. */
  const LoneNewline: seq<Token> := [Token(Word, "a", 0, 1), Token(Newline, "\n", 1, 2), Token(Word, "b", 2, 3)]

  /** A newline between two words is dropped: the words run together. */
  lemma LoneNewlineDropped()
    ensures TextFrom(LoneNewline, 0) == Returns("ab")
  {
    var ts := LoneNewline;
    assert TextFrom(ts, 3) == Returns([]);
    assert "b" + [] == "b";
    assert TextFrom(ts, 2) == Returns("b");
    assert ts[1].kind == Newline && ts[2].kind == Word;
    assert TextFrom(ts, 1) == Returns("b");
    assert ts[0].kind == Word && ts[0].value == "a";
    assert "a" + "b" == "ab";
  }

  /** A block has one content only: a second braced part behind the first
      finds no name in the buffer and panics. */
  lemma SecondContentPanics()
    ensures ContentFrom([Token(Word, "a", 0, 1), Token(Open, "{", 1, 2), Token(Close, "}", 2, 3),
                         Token(Whitespace, " ", 3, 4), Token(Open, "{", 4, 5), Token(Close, "}", 5, 6)],
                        0, [], []).Panics?
  {
    var ts := [Token(Word, "a", 0, 1), Token(Open, "{", 1, 2), Token(Close, "}", 2, 3),
               Token(Whitespace, " ", 3, 4), Token(Open, "{", 4, 5), Token(Close, "}", 5, 6)];
    assert |ts| == 6 && ts[2].kind == Close;
    assert ParseText([]) == Returns(None);
    assert Pushed(None) == [];
    var none: Content := [];
    assert none + [] == none;
    assert Finish([], none, 3) == Returns((none, 3));
    assert ContentFrom(ts, 2, [], []) == Finish([], [], 3);
    assert ContentFrom(ts, 2, [], []) == Returns(([], 3));
    var w := [ts[0]];
    assert w[0].kind == Word && w[0].value == "a" && w[..0] == [];
    assert S.NameSplit(w) == Some(("a", []));
    assert none + [] + [Block("a", none)] == [Block("a", none)];
    assert OpenHead(ts, 1, w, []) == Returns(([Block("a", [])], 3));
    assert ts[3].kind == Whitespace && ts[4].kind == Open;
    var space := [] + [ts[3]];
    assert S.NameSplit(space) == None by {
      assert space[0].kind != Word;
      assert space[..0] == [];
    }
    assert OpenHead(ts, 4, space, [Block("a", [])]).Panics?;
    assert ContentFrom(ts, 3, [], [Block("a", [])]) == ContentFrom(ts, 4, space, [Block("a", [])]);
    assert ts[1].kind == Open && ts[0].kind == Word;
    assert [] + [ts[0]] == w;
    assert ContentFrom(ts, 0, [], []) == ContentFrom(ts, 1, w, []);
  }
}
