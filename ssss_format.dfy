/** The ssss formatter (src/ssss/format.rs): lays a tree of text and blocks
    out as markup again, wrapping words at a soft line limit, inlining
    blocks whose single body is a single text, and putting other bodies on
    lines of their own, indented one level deeper. */
module SsssFormat {
  import opened Wrappers
  import opened Strings
  import Utils

  /** An element of the tree (src/ssss/tree.rs); a node is its element, the
      source position it also carries is not modelled. */
  datatype Element = Text(text: seq<char>) | Block(name: seq<char>, bodies: seq<Body>)

  /** A body, the list of nodes between a pair of braces. */
  datatype Body = Body(nodes: seq<Element>)

  /** `FormatConfig`: the soft line limit and the number of spaces one
      level of indentation takes. */
  datatype Config = Config(limit: nat, indentation: nat)

  /** `Request`: the configuration, the indentation level and the offset
      the text starts at in its line. */
  datatype Request = Request(config: Config, level: nat, offset: nat)

  datatype Inlining = NotInlined | Inlined(offset: nat)

  datatype Response = Response(text: seq<char>, inlining: Inlining)

  /** `indentation_string`: one space per indentation unit and level. */
  function Indentation(req: Request): (s: seq<char>)
    ensures |s| == req.config.indentation * req.level
    ensures forall k :: 0 <= k < |s| ==> s[k] == ' '
  {
    seq(req.config.indentation * req.level, _ => ' ')
  }

  /** `indentation_string().len()`: spaces take one byte each. */
  function IndentLen(req: Request): (n: nat)
    ensures n == |Indentation(req)|
  {
    var s := Indentation(req);
    ByteLenAscii(s);
    ByteLen(s)
  }

  lemma IndentationInvisible(req: Request)
    ensures Visible(Indentation(req)) == []
  {
    VisibleOfWhitespace(Indentation(req));
  }

  /** The request for the bodies of a block that is not inlined: one level
      deeper, at the start of a line. */
  function BodyRequest(req: Request): Request {
    Request(req.config, req.level + 1, 0)
  }

  // ---------------------------------------------------------------------
  // `wrap_words` and `flush_word`

  /** The state of `wrap_words`: the finished lines, the current line, its
      offset and the word being read. */
  datatype Wrap = Wrap(lines: seq<seq<char>>, line: seq<char>, offset: nat, word: seq<char>)

  /** The loop of `flush_word` that pops characters off the line: every
      trailing space goes, nothing else. */
  function Stripped(line: seq<char>): (r: seq<char>)
    ensures |r| <= |line| && r == line[..|r|]
    ensures r == [] || r[|r| - 1] != ' '
    ensures forall k :: |r| <= k < |line| ==> line[k] == ' '
  {
    if line != [] && line[|line| - 1] == ' ' then
      var r := Stripped(line[..|line| - 1]);
      assert forall k :: |r| <= k < |line| - 1 ==> line[k] == line[..|line| - 1][k];
      r
    else line
  }

  /** `flush_word`: the word goes onto the line when it fits; otherwise the
      line loses its trailing spaces and, unless it is at offset 0, is
      closed, and the word starts a new line after the indentation. */
  function Flushed(req: Request, w: Wrap): Wrap {
    if w.offset + ByteLen(w.word) <= req.config.limit then
      Wrap(w.lines, w.line + w.word, w.offset + ByteLen(w.word), [])
    else
      var line := Stripped(w.line);
      if w.offset > 0 then Wrap(w.lines + [line], Indentation(req) + w.word, IndentLen(req) + ByteLen(w.word), [])
      else Wrap(w.lines, line + w.word, w.offset + ByteLen(w.word), [])
  }

  /** One character of the loop of `wrap_words`: whitespace flushes the
      word and goes onto the line, counting one column; anything else
      extends the word. */
  function Feed(req: Request, w: Wrap, c: char): Wrap {
    if IsWhitespace(c) then
      var f := if w.word != [] then Flushed(req, w) else w;
      Wrap(f.lines, f.line + [c], f.offset + 1, [])
    else w.(word := w.word + [c])
  }

  /** The loop of `wrap_words` over the characters of `s`. */
  function FeedAll(req: Request, w: Wrap, s: seq<char>): Wrap
    decreases |s|
  {
    if s == [] then w else Feed(req, FeedAll(req, w, s[..|s| - 1]), s[|s| - 1])
  }

  /** The state `wrap_words` starts in: no line, and the offset of the
      indentation plus the request's offset. */
  function Start(req: Request): Wrap {
    Wrap([], [], IndentLen(req) + req.offset, [])
  }

  /** `lines.join("\n")`. */
  function JoinLines(lines: seq<seq<char>>): seq<char> {
    if lines == [] then []
    else if |lines| == 1 then lines[0]
    else JoinLines(lines[..|lines| - 1]) + "\n" + lines[|lines| - 1]
  }

  /** The end of `wrap_words`: the last word flushed, the line kept when
      its offset is positive, and the lines joined. */
  function Finish(req: Request, w: Wrap): Response {
    var f := if w.word != [] then Flushed(req, w) else w;
    var lines := if f.offset > 0 then f.lines + [f.line] else f.lines;
    Response(JoinLines(lines), Inlined(f.offset))
  }

  /** `wrap_words`. */
  function Wrapped(text: seq<char>, req: Request): Response {
    Finish(req, FeedAll(req, Start(req), text))
  }

  /** The pop loop of `flush_word`. */
  method PopSpaces(line: seq<char>) returns (r: seq<char>)
    ensures r == Stripped(line)
  {
    r := line;
    while true
      invariant Stripped(r) == Stripped(line)
      decreases |r|
    {
      if |r| == 0 {
        return;
      }
      var last := r[|r| - 1];
      var popped := r[..|r| - 1];
      if last != ' ' {
        assert popped + [last] == r;
        return;
      }
      r := popped;
    }
  }

  /** `flush_word`, on the state `wrap_words` hands it by reference. */
  method FlushWord(req: Request, lines: seq<seq<char>>, line: seq<char>, offset: nat, word: seq<char>)
    returns (lines': seq<seq<char>>, line': seq<char>, offset': nat)
    ensures Wrap(lines', line', offset', []) == Flushed(req, Wrap(lines, line, offset, word))
  {
    lines', line', offset' := lines, line, offset;
    if offset' + ByteLen(word) <= req.config.limit {
      line' := line' + word;
      offset' := offset' + ByteLen(word);
    } else {
      line' := PopSpaces(line');
      if offset' > 0 {
        lines' := lines' + [line'];
        line' := Indentation(req);
        offset' := IndentLen(req);
      }
      line' := line' + word;
      offset' := offset' + ByteLen(word);
    }
  }

  /** `wrap_words`: the character loop, then the last word and the last
      line. */
  method WrapWords(text: seq<char>, req: Request) returns (r: Response)
    ensures r == Wrapped(text, req)
  {
    var lines: seq<seq<char>> := [];
    var line: seq<char> := [];
    var offset: nat := IndentLen(req) + req.offset;
    var word: seq<char> := [];
    for i := 0 to |text|
      invariant Wrap(lines, line, offset, word) == FeedAll(req, Start(req), text[..i])
    {
      var c := text[i];
      assert text[..i + 1][..i] == text[..i];
      if IsWhitespace(c) {
        if word != [] {
          lines, line, offset := FlushWord(req, lines, line, offset, word);
        }
        word := [];
        line := line + [c];
        offset := offset + 1;
      } else {
        word := word + [c];
      }
    }
    assert text[..|text|] == text;
    if word != [] {
      lines, line, offset := FlushWord(req, lines, line, offset, word);
    }
    if offset > 0 {
      lines := lines + [line];
    }
    r := Response(JoinLines(lines), Inlined(offset));
  }

  // ---------------------------------------------------------------------
  // What `wrap_words` promises

  /** The visible characters of a state: those of its lines, its line and
      its word. */
  function Content(w: Wrap): seq<char> {
    Visible(JoinLines(w.lines)) + Visible(w.line) + w.word
  }

  /** What the loop of `wrap_words` keeps: the word has no whitespace, the
      offset is at least the indentation's, and a line at offset 0 is
      empty. */
  predicate Sound(req: Request, w: Wrap) {
    && NoWhitespace(w.word)
    && w.offset >= IndentLen(req)
    && (w.offset == 0 ==> w.line == [])
  }

  /** Joining one more line adds its visible characters. */
  lemma JoinLinesVisible(lines: seq<seq<char>>, line: seq<char>)
    ensures Visible(JoinLines(lines + [line])) == Visible(JoinLines(lines)) + Visible(line)
  {
    var all := lines + [line];
    assert all[..|all| - 1] == lines;
    if lines != [] {
      VisibleAppend(JoinLines(lines) + "\n", line);
      VisibleAppend(JoinLines(lines), "\n");
      assert Visible("\n") == [];
    }
  }

  /** Popping trailing spaces drops no visible character. */
  lemma StrippedVisible(line: seq<char>)
    ensures Visible(Stripped(line)) == Visible(line)
  {
    var r := Stripped(line);
    assert line == r + line[|r|..];
    VisibleAppend(r, line[|r|..]);
    VisibleOfWhitespace(line[|r|..]);
  }

  /** A word of at least one character takes at least one byte. */
  lemma ByteLenPositive(s: seq<char>)
    requires s != []
    ensures ByteLen(s) > 0
  {
  }

  /** `flush_word` moves the word onto the lines without losing a visible
      character, and leaves the offset positive. */
  lemma FlushedKeeps(req: Request, w: Wrap)
    requires Sound(req, w) && w.word != []
    ensures Content(Flushed(req, w)) == Content(w)
    ensures Sound(req, Flushed(req, w)) && Flushed(req, w).offset > 0
  {
    ByteLenPositive(w.word);
    VisibleOfWord(w.word);
    if w.offset + ByteLen(w.word) <= req.config.limit {
      SameLineKeeps(w, w.line);
    } else if w.offset > 0 {
      NewLineKeeps(req, w);
      var f := Flushed(req, w);
      assert Content(f) == Visible(JoinLines(w.lines)) + Visible(w.line) + w.word + [];
    } else {
      StrippedVisible(w.line);
      SameLineKeeps(w, Stripped(w.line));
    }
  }

  /** The branches of `flush_word` that put the word onto the line, the
      line stripped or not. */
  lemma SameLineKeeps(w: Wrap, line: seq<char>)
    requires Visible(line) == Visible(w.line) && Visible(w.word) == w.word
    ensures Content(Wrap(w.lines, line + w.word, w.offset + ByteLen(w.word), [])) == Content(w)
  {
    VisibleAppend(line, w.word);
  }

  /** The branch of `flush_word` that closes the line: the line goes to
      the lines without its trailing spaces, and the new line holds the
      indentation and the word. */
  lemma NewLineKeeps(req: Request, w: Wrap)
    requires Visible(w.word) == w.word
    ensures Visible(JoinLines(w.lines + [Stripped(w.line)])) == Visible(JoinLines(w.lines)) + Visible(w.line)
    ensures Visible(Indentation(req) + w.word) == w.word
  {
    StrippedVisible(w.line);
    JoinLinesVisible(w.lines, Stripped(w.line));
    VisibleAppend(Indentation(req), w.word);
    IndentationInvisible(req);
  }

  /** One character of the loop keeps the state sound and adds its visible
      part. */
  lemma FeedKeeps(req: Request, w: Wrap, c: char)
    requires Sound(req, w)
    ensures Sound(req, Feed(req, w, c))
    ensures Content(Feed(req, w, c)) == Content(w) + Visible([c])
  {
    if IsWhitespace(c) {
      FeedSpaceKeeps(req, w, c);
    } else {
      FeedWordKeeps(req, w, c);
    }
  }

  lemma FeedSpaceKeeps(req: Request, w: Wrap, c: char)
    requires Sound(req, w) && IsWhitespace(c)
    ensures Sound(req, Feed(req, w, c))
    ensures Content(Feed(req, w, c)) == Content(w)
    ensures Visible([c]) == []
  {
    var f := if w.word != [] then Flushed(req, w) else w;
    if w.word != [] {
      FlushedKeeps(req, w);
    }
    assert Content(f) == Content(w) && f.word == [];
    VisibleAppend(f.line, [c]);
    assert Visible([c]) == [];
  }

  lemma FeedWordKeeps(req: Request, w: Wrap, c: char)
    requires Sound(req, w) && !IsWhitespace(c)
    ensures Sound(req, Feed(req, w, c))
    ensures Content(Feed(req, w, c)) == Content(w) + [c]
    ensures Visible([c]) == [c]
  {
    assert NoWhitespace(w.word + [c]);
    assert Visible([c]) == [c];
    Utils.AppendAssoc(Visible(JoinLines(w.lines)) + Visible(w.line), w.word, [c]);
  }

  /** The loop over `s` keeps the state sound and holds every visible
      character of `s`, in order. */
  lemma {:induction false} FeedAllKeeps(req: Request, s: seq<char>)
    ensures Sound(req, FeedAll(req, Start(req), s))
    ensures Content(FeedAll(req, Start(req), s)) == Visible(s)
    decreases |s|
  {
    if s != [] {
      var n := |s| - 1;
      FeedAllKeeps(req, s[..n]);
      FeedKeeps(req, FeedAll(req, Start(req), s[..n]), s[n]);
      assert s == s[..n] + [s[n]];
      VisibleAppend(s[..n], [s[n]]);
    }
  }

  /** `wrap_words` never drops, splits or reorders a word: only whitespace
      differs between its text and the input.  It reports the text as
      inlined, at an offset no smaller than the indentation. */
  lemma WrappedKeepsWords(text: seq<char>, req: Request)
    ensures Visible(Wrapped(text, req).text) == Visible(text)
    ensures Wrapped(text, req).inlining.Inlined?
    ensures Wrapped(text, req).inlining.offset >= IndentLen(req)
  {
    var w := FeedAll(req, Start(req), text);
    FeedAllKeeps(req, text);
    var f := if w.word != [] then Flushed(req, w) else w;
    if w.word != [] {
      FlushedKeeps(req, w);
    }
    assert Content(f) == Visible(text) && f.word == [];
    if f.offset > 0 {
      JoinLinesVisible(f.lines, f.line);
    }
  }

  /** Text that fits into the rest of the line comes back unchanged, and
      the offset moves on by its bytes, one per whitespace character. */
  lemma {:induction false} FitsUnchanged(req: Request, s: seq<char>)
    requires IndentLen(req) + req.offset + ByteLen(s) <= req.config.limit
    ensures var w := FeedAll(req, Start(req), s);
      && w.lines == [] && w.line + w.word == s
      && w.offset + ByteLen(w.word) <= IndentLen(req) + req.offset + ByteLen(s)
    decreases |s|
  {
    if s != [] {
      var n := |s| - 1;
      assert s == s[..n] + [s[n]];
      ByteLenAppend(s[..n], [s[n]]);
      FitsUnchanged(req, s[..n]);
      var w := FeedAll(req, Start(req), s[..n]);
      if IsWhitespace(s[n]) {
        if w.word != [] {
          Utils.AppendAssoc(w.line, w.word, [s[n]]);
        }
      } else {
        Utils.AppendAssoc(w.line, w.word, [s[n]]);
        ByteLenAppend(w.word, [s[n]]);
      }
    }
  }

  lemma WrappedFits(text: seq<char>, req: Request)
    requires IndentLen(req) + req.offset + ByteLen(text) <= req.config.limit
    ensures Wrapped(text, req).text == text
  {
    FitsUnchanged(req, text);
    var w := FeedAll(req, Start(req), text);
    if w.word != [] {
      assert Flushed(req, w).line == text;
    }
    FeedAllKeeps(req, text);
  }

  // ---------------------------------------------------------------------
  // `Element::format`, `[Node]::format` and `format`

  /** `is_inlinable`: a text, or a block whose only body holds only a
      text. */
  predicate IsInlinable(e: Element) {
    match e
    case Text(_) => true
    case Block(_, bodies) => |bodies| == 1 && |bodies[0].nodes| == 1 && bodies[0].nodes[0].Text?
  }

  /** The text an inlined block is wrapped as, AS WRITTEN: the block's text
      goes between the braces without its own braces doubled. */
  function InlineTextAsWritten(name: seq<char>, text: seq<char>, req: Request): seq<char> {
    if req.offset > 0 then name + "{ " + text + " }" else name + " { " + text + " }"
  }

  /** The text an inlined block is wrapped as, with the text escaped the
      way a Text element is: the space before the brace only at the start
      of a line. */
  function InlineText(name: seq<char>, text: seq<char>, req: Request): (r: seq<char>)
    ensures r == InlineTextAsWritten(name, Escaped(text), req)
  {
    ReplaceBracesEscapes(text);
    InlineTextAsWritten(name, Replace(Replace(text, '{', "{{"), '}', "}}"), req)
  }

  /** One body of a block that is not inlined, placed after `text` at
      `offset`: on the same line between " { " and " }" when it has one
      line and leaves two columns before the limit, otherwise on lines of
      its own.  `limit - 2` panics below 2 once the body has one line. */
  function Place(body: seq<char>, req: Request, text: seq<char>, offset: nat): (r: Outcome<(seq<char>, nat)>)
    ensures r.Panics? <==> '\n' !in body && req.config.limit < 2
  {
    if '\n' !in body && req.config.limit < 2 then Panics
    else if '\n' !in body && offset + 5 + ByteLen(body) < req.config.limit - 2 then
      Returns((text + " { " + body + " }", offset + 5 + ByteLen(body)))
    else
      Returns((text + " {\n" + Indentation(BodyRequest(req)) + body + "\n" + Indentation(req) + "}", IndentLen(req) + 1))
  }

  /** `Element::format`.  A text is escaped and wrapped, an inlinable block
      is wrapped as one text, and any other block lays out its bodies one
      after the other, starting after its name. */
  function ElementLayout(e: Element, req: Request): (r: Outcome<Response>)
    ensures IsInlinable(e) ==> r.Returns? && r.value.inlining.Inlined?
    ensures !IsInlinable(e) && r.Returns? ==> r.value.inlining == NotInlined
    decreases e, 2
  {
    match e
    case Text(t) => Returns(Wrapped(Replace(Replace(t, '{', "{{"), '}', "}}"), req))
    case Block(name, bodies) =>
      if |bodies| == 1 && |bodies[0].nodes| == 1 && bodies[0].nodes[0].Text? then
        Returns(Wrapped(InlineText(name, bodies[0].nodes[0].text, req), req))
      else
        match BlockFrom(bodies, req, name, ByteLen(name))
        case Returns(text) => Returns(Response(text, NotInlined))
        case Panics => Panics
  }

  /** The loop of `Element::format` over the bodies, from `text` at
      `offset`. */
  function BlockFrom(bodies: seq<Body>, req: Request, text: seq<char>, offset: nat): Outcome<seq<char>>
    decreases bodies, 2
  {
    if bodies == [] then Returns(text)
    else
      match NodesLayout(bodies[0].nodes, BodyRequest(req))
      case Panics => Panics
      case Returns(response) =>
        match Place(response.text, req, text, offset)
        case Panics => Panics
        case Returns(placed) => BlockFrom(bodies[1..], req, placed.0, placed.1)
  }

  /** `[Node]::format`: only ever asked for at the start of a line; the
      nodes follow one another, a block that is not inlined on lines of
      its own. */
  function NodesLayout(nodes: seq<Element>, req: Request): (r: Outcome<Response>)
    ensures req.offset != 0 ==> r.Panics?
    ensures r.Returns? ==> r.value.inlining == NotInlined
    decreases nodes, 1
  {
    if req.offset != 0 then Panics
    else
      match NodesFrom(nodes, req, [], 0)
      case Returns(text) => Returns(Response(text, NotInlined))
      case Panics => Panics
  }

  /** The text and offset after one node of `[Node]::format`: a block
      that is not inlined starts a new line unless the text is empty or its
      line holds only the indentation, ends its line, and leaves the offset
      where it was; an inlined element moves the offset on. */
  function NextText(req: Request, text: seq<char>, offset: nat, response: Response): (seq<char>, nat) {
    match response.inlining
    case NotInlined =>
      var t := if text != [] && offset > IndentLen(req) then text + "\n" + Indentation(req) else text;
      (t + response.text + "\n" + Indentation(req), offset)
    case Inlined(o) => (text + response.text, o)
  }

  /** The loop of `[Node]::format` over the nodes, from `text` at `offset`. */
  function NodesFrom(nodes: seq<Element>, req: Request, text: seq<char>, offset: nat): Outcome<seq<char>>
    decreases nodes, 0
  {
    if nodes == [] then Returns(text)
    else
      match ElementLayout(nodes[0], req.(offset := offset))
      case Panics => Panics
      case Returns(response) =>
        var next := NextText(req, text, offset, response);
        NodesFrom(nodes[1..], req, next.0, next.1)
  }

  /** `format`: the nodes at level 0 and offset 0, and one newline more. */
  function Formatted(nodes: seq<Element>, config: Config): (r: Outcome<seq<char>>)
    ensures r.Returns? ==> |r.value| > 0 && r.value[|r.value| - 1] == '\n'
  {
    match NodesLayout(nodes, Request(config, 0, 0))
    case Returns(response) => Returns(response.text + "\n")
    case Panics => Panics
  }

  /** `Element::format`. */
  method FormatElement(e: Element, req: Request) returns (r: Outcome<Response>)
    ensures r == ElementLayout(e, req)
    decreases e, 2
  {
    match e
    case Text(t) =>
      var escaped := Replace(Replace(t, '{', "{{"), '}', "}}");
      var w := WrapWords(escaped, req);
      return Returns(w);
    case Block(name, bodies) =>
      if |bodies| == 1 && |bodies[0].nodes| == 1 && bodies[0].nodes[0].Text? {
        var w := WrapWords(InlineText(name, bodies[0].nodes[0].text, req), req);
        return Returns(w);
      }
      var text := name;
      var offset: nat := ByteLen(name);
      for i := 0 to |bodies|
        invariant BlockFrom(bodies, req, name, ByteLen(name)) == BlockFrom(bodies[i..], req, text, offset)
      {
        assert bodies[i] in bodies;
        var response := FormatNodes(bodies[i].nodes, BodyRequest(req));
        assert bodies[i..][1..] == bodies[i + 1..];
        if response.Panics? {
          return Panics;
        }
        var body := response.value.text;
        if '\n' !in body && req.config.limit < 2 {
          return Panics;
        }
        if '\n' !in body && offset + 5 + ByteLen(body) < req.config.limit - 2 {
          text := text + " { " + body + " }";
          offset := offset + 5 + ByteLen(body);
        } else {
          text := text + " {\n" + Indentation(BodyRequest(req)) + body + "\n" + Indentation(req) + "}";
          offset := IndentLen(req) + 1;
        }
      }
      return Returns(Response(text, NotInlined));
  }

  /** `[Node]::format`. */
  method FormatNodes(nodes: seq<Element>, req: Request) returns (r: Outcome<Response>)
    ensures r == NodesLayout(nodes, req)
    decreases nodes, 1
  {
    if req.offset != 0 {
      return Panics;
    }
    var text: seq<char> := [];
    var offset: nat := 0;
    for i := 0 to |nodes|
      invariant NodesFrom(nodes, req, [], 0) == NodesFrom(nodes[i..], req, text, offset)
    {
      var response := FormatElement(nodes[i], req.(offset := offset));
      assert nodes[i..][1..] == nodes[i + 1..];
      if response.Panics? {
        return Panics;
      }
      match response.value.inlining
      case NotInlined =>
        if text != [] && offset > IndentLen(req) {
          text := text + "\n" + Indentation(req);
        }
        text := text + response.value.text + "\n" + Indentation(req);
      case Inlined(o) =>
        text := text + response.value.text;
        offset := o;
    }
    return Returns(Response(text, NotInlined));
  }

  /** `format`. */
  method Format(nodes: seq<Element>, config: Config) returns (r: Outcome<seq<char>>)
    ensures r == Formatted(nodes, config)
  {
    var response := FormatNodes(nodes, Request(config, 0, 0));
    if response.Panics? {
      return Panics;
    }
    var text := response.value.text;
    text := text + "\n";
    return Returns(text);
  }

  // ---------------------------------------------------------------------
  // What `format` promises

  /** The content of a tree as one string, every brace of a text doubled:
      a text is its escaped string, a block its name followed by each body
      between braces. */
  function FlatElement(e: Element): seq<char>
    decreases e, 1
  {
    match e
    case Text(t) => Escaped(t)
    case Block(name, bodies) => name + FlatBodies(bodies)
  }

  function FlatBodies(bodies: seq<Body>): seq<char>
    decreases bodies, 1
  {
    if bodies == [] then [] else "{" + FlatNodes(bodies[0].nodes) + "}" + FlatBodies(bodies[1..])
  }

  function FlatNodes(nodes: seq<Element>): seq<char>
    decreases nodes, 0
  {
    if nodes == [] then [] else FlatElement(nodes[0]) + FlatNodes(nodes[1..])
  }

  lemma VisibleOfThree(a: seq<char>, b: seq<char>, c: seq<char>)
    ensures Visible(a + b + c) == Visible(a) + Visible(b) + Visible(c)
  {
    VisibleAppend(a + b, c);
    VisibleAppend(a, b);
  }

  /** The visible characters of the pieces the formatter puts around
      bodies. */
  lemma PiecesVisible()
    ensures Visible("{") == "{" && Visible("}") == "}"
    ensures Visible("{ ") == "{" && Visible(" { ") == "{" && Visible(" {\n") == "{"
    ensures Visible(" }") == "}" && Visible("\n") == []
  {
  }

  /** Text between an opening and a closing piece shows between braces. */
  lemma Enclosed(pre: seq<char>, s: seq<char>, open: seq<char>, close: seq<char>)
    requires Visible(open) == "{" && Visible(close) == "}"
    ensures Visible(pre + open + s + close) == Visible(pre) + ("{" + Visible(s) + "}")
  {
    VisibleOfThree(pre + open, s, close);
    VisibleAppend(pre, open);
  }

  /** A body between braces keeps its visible characters between the
      braces. */
  lemma VisibleBraced(s: seq<char>, rest: seq<char>)
    ensures Visible("{" + s + "}" + rest) == "{" + Visible(s) + "}" + Visible(rest)
  {
    VisibleAppend("{" + s + "}", rest);
    VisibleOfThree("{", s, "}");
    PiecesVisible();
  }

  /** The pieces around a body placed on lines of its own. */
  lemma OwnLinesPieces(req: Request)
    ensures Visible(" {\n" + Indentation(BodyRequest(req))) == "{"
    ensures Visible("\n" + Indentation(req) + "}") == "}"
  {
    PiecesVisible();
    IndentationInvisible(BodyRequest(req));
    IndentationInvisible(req);
    VisibleAppend(" {\n", Indentation(BodyRequest(req)));
    VisibleOfThree("\n", Indentation(req), "}");
  }

  /** Wherever a body goes, its visible characters follow the block's,
      between braces. */
  lemma PlaceVisible(body: seq<char>, req: Request, text: seq<char>, offset: nat)
    requires Place(body, req, text, offset).Returns?
    ensures Visible(Place(body, req, text, offset).value.0) == Visible(text) + ("{" + Visible(body) + "}")
  {
    if '\n' !in body && offset + 5 + ByteLen(body) < req.config.limit - 2 {
      PiecesVisible();
      Enclosed(text, body, " { ", " }");
    } else {
      var open := " {\n" + Indentation(BodyRequest(req));
      var close := "\n" + Indentation(req) + "}";
      OwnLinesPieces(req);
      Enclosed(text, body, open, close);
      assert text + open + body + close == Place(body, req, text, offset).value.0;
    }
  }

  /** The content of a block whose only body is one text. */
  lemma FlatInline(name: seq<char>, t: seq<char>)
    ensures FlatElement(Block(name, [Body([Text(t)])])) == name + "{" + Escaped(t) + "}"
  {
    assert FlatNodes([Text(t)]) == Escaped(t) + [];
    assert FlatBodies([Body([Text(t)])]) == "{" + Escaped(t) + "}" + [];
  }

  /** The escaped block text, inlined, keeps the visible characters of the
      block's content. */
  lemma InlineVisible(name: seq<char>, t: seq<char>, req: Request)
    ensures Visible(InlineText(name, t, req)) == Visible(FlatElement(Block(name, [Body([Text(t)])])))
  {
    FlatInline(name, t);
    PiecesVisible();
    Enclosed(name, Escaped(t), "{", "}");
    if req.offset > 0 {
      Enclosed(name, Escaped(t), "{ ", " }");
    } else {
      Enclosed(name, Escaped(t), " { ", " }");
    }
  }

  /** A Text element is wrapped with every brace doubled. */
  lemma TextEscaped(t: seq<char>, req: Request)
    ensures ElementLayout(Text(t), req) == Returns(Wrapped(Escaped(t), req))
  {
    ReplaceBracesEscapes(t);
  }

  /** Formatting an element changes whitespace only: its visible
      characters are those of its content. */
  lemma {:induction false} ElementVisible(e: Element, req: Request)
    requires ElementLayout(e, req).Returns?
    ensures Visible(ElementLayout(e, req).value.text) == Visible(FlatElement(e))
    decreases e, 2
  {
    match e
    case Text(t) =>
      TextEscaped(t, req);
      WrappedKeepsWords(Escaped(t), req);
    case Block(name, bodies) =>
      if |bodies| == 1 && |bodies[0].nodes| == 1 && bodies[0].nodes[0].Text? {
        var t := bodies[0].nodes[0].text;
        assert bodies[0].nodes == [Text(t)];
        assert bodies == [Body([Text(t)])];
        WrappedKeepsWords(InlineText(name, t, req), req);
        InlineVisible(name, t, req);
      } else {
        BlockVisible(bodies, req, name, ByteLen(name));
        VisibleAppend(name, FlatBodies(bodies));
      }
  }

  lemma {:induction false} BlockVisible(bodies: seq<Body>, req: Request, text: seq<char>, offset: nat)
    requires BlockFrom(bodies, req, text, offset).Returns?
    ensures Visible(BlockFrom(bodies, req, text, offset).value) == Visible(text) + Visible(FlatBodies(bodies))
    decreases bodies, 2
  {
    if bodies == [] {
      assert Visible(text) + Visible([]) == Visible(text);
    } else {
      var nodes := bodies[0].nodes;
      BlockUnfold(bodies, req, text, offset);
      var response := NodesLayout(nodes, BodyRequest(req)).value;
      var placed := Place(response.text, req, text, offset).value;
      NodesLayoutVisible(nodes, BodyRequest(req));
      PlaceVisible(response.text, req, text, offset);
      BlockVisible(bodies[1..], req, placed.0, placed.1);
      VisibleBraced(FlatNodes(nodes), FlatBodies(bodies[1..]));
      Utils.AppendAssoc(Visible(text), "{" + Visible(FlatNodes(nodes)) + "}", Visible(FlatBodies(bodies[1..])));
    }
  }

  /** One turn of the loop over the bodies. */
  lemma BlockUnfold(bodies: seq<Body>, req: Request, text: seq<char>, offset: nat)
    requires bodies != [] && BlockFrom(bodies, req, text, offset).Returns?
    ensures NodesLayout(bodies[0].nodes, BodyRequest(req)).Returns?
    ensures var response := NodesLayout(bodies[0].nodes, BodyRequest(req)).value;
      && Place(response.text, req, text, offset).Returns?
      && var placed := Place(response.text, req, text, offset).value;
        BlockFrom(bodies, req, text, offset) == BlockFrom(bodies[1..], req, placed.0, placed.1)
  {
  }

  lemma {:induction false} NodesLayoutVisible(nodes: seq<Element>, req: Request)
    requires NodesLayout(nodes, req).Returns?
    ensures Visible(NodesLayout(nodes, req).value.text) == Visible(FlatNodes(nodes))
    decreases nodes, 1
  {
    NodesVisible(nodes, req, [], 0);
  }

  /** The separator before a block that is not inlined is whitespace. */
  lemma SeparatorInvisible(text: seq<char>, req: Request)
    ensures Visible(text + "\n" + Indentation(req)) == Visible(text)
  {
    VisibleOfThree(text, "\n", Indentation(req));
    IndentationInvisible(req);
    assert Visible("\n") == [];
  }

  lemma {:induction false} NodesVisible(nodes: seq<Element>, req: Request, text: seq<char>, offset: nat)
    requires NodesFrom(nodes, req, text, offset).Returns?
    ensures Visible(NodesFrom(nodes, req, text, offset).value) == Visible(text) + Visible(FlatNodes(nodes))
    decreases nodes, 0
  {
    if nodes == [] {
      assert Visible(text) + Visible([]) == Visible(text);
    } else {
      NodesUnfold(nodes, req, text, offset);
      var response := ElementLayout(nodes[0], req.(offset := offset)).value;
      var next := NextText(req, text, offset, response);
      ElementVisible(nodes[0], req.(offset := offset));
      NextTextVisible(req, text, offset, response);
      NodesVisible(nodes[1..], req, next.0, next.1);
      VisibleAppend(FlatElement(nodes[0]), FlatNodes(nodes[1..]));
      Utils.AppendAssoc(Visible(text), Visible(response.text), Visible(FlatNodes(nodes[1..])));
    }
  }

  /** One turn of the loop over the nodes. */
  lemma NodesUnfold(nodes: seq<Element>, req: Request, text: seq<char>, offset: nat)
    requires nodes != [] && NodesFrom(nodes, req, text, offset).Returns?
    ensures ElementLayout(nodes[0], req.(offset := offset)).Returns?
    ensures var next := NextText(req, text, offset, ElementLayout(nodes[0], req.(offset := offset)).value);
      NodesFrom(nodes, req, text, offset) == NodesFrom(nodes[1..], req, next.0, next.1)
  {
  }

  /** Whatever the node's inlining, its visible characters follow the
      text's. */
  lemma NextTextVisible(req: Request, text: seq<char>, offset: nat, response: Response)
    ensures Visible(NextText(req, text, offset, response).0) == Visible(text) + Visible(response.text)
  {
    match response.inlining
    case NotInlined =>
      var t := if text != [] && offset > IndentLen(req) then text + "\n" + Indentation(req) else text;
      assert Visible(t) == Visible(text) by {
        SeparatorInvisible(text, req);
      }
      SeparatorInvisible(t + response.text, req);
      VisibleAppend(t, response.text);
    case Inlined(o) =>
      VisibleAppend(text, response.text);
  }

  /** `format` changes whitespace only: the visible characters of its
      output are those of the tree, braces of texts doubled. */
  lemma FormatKeepsContent(nodes: seq<Element>, config: Config)
    requires Formatted(nodes, config).Returns?
    ensures Visible(Formatted(nodes, config).value) == Visible(FlatNodes(nodes))
  {
    var response := NodesLayout(nodes, Request(config, 0, 0)).value;
    NodesLayoutVisible(nodes, Request(config, 0, 0));
    VisibleAppend(response.text, "\n");
    assert Visible("\n") == [];
  }

  /** With a limit of at least 2 nothing panics. */
  lemma {:induction false} ElementReturns(e: Element, req: Request)
    requires req.config.limit >= 2
    ensures ElementLayout(e, req).Returns?
    decreases e, 2
  {
    if e.Block? && !IsInlinable(e) {
      BlockReturns(e.bodies, req, e.name, ByteLen(e.name));
    }
  }

  lemma {:induction false} BlockReturns(bodies: seq<Body>, req: Request, text: seq<char>, offset: nat)
    requires req.config.limit >= 2
    ensures BlockFrom(bodies, req, text, offset).Returns?
    decreases bodies, 2
  {
    if bodies != [] {
      NodesReturns(bodies[0].nodes, BodyRequest(req), [], 0);
      var response := NodesLayout(bodies[0].nodes, BodyRequest(req)).value;
      var placed := Place(response.text, req, text, offset).value;
      BlockReturns(bodies[1..], req, placed.0, placed.1);
    }
  }

  lemma {:induction false} NodesReturns(nodes: seq<Element>, req: Request, text: seq<char>, offset: nat)
    requires req.config.limit >= 2
    ensures NodesFrom(nodes, req, text, offset).Returns?
    decreases nodes, 0
  {
    if nodes != [] {
      ElementReturns(nodes[0], req.(offset := offset));
      var next := NextText(req, text, offset, ElementLayout(nodes[0], req.(offset := offset)).value);
      NodesReturns(nodes[1..], req, next.0, next.1);
    }
  }

  /** `format` panics only through `limit - 2`: never with a limit of at
      least 2, and with a smaller one as soon as a block that is not
      inlined has a body of one line. */
  lemma FormatReturns(nodes: seq<Element>, config: Config)
    ensures config.limit >= 2 ==> Formatted(nodes, config).Returns?
    ensures config.limit < 2 ==> Formatted([Block("b", [Body([])])], config).Panics?
  {
    if config.limit >= 2 {
      NodesReturns(nodes, Request(config, 0, 0), [], 0);
    } else {
      var req := Request(config, 0, 0);
      var e := Block("b", [Body([])]);
      assert NodesLayout([], BodyRequest(req)) == Returns(Response([], NotInlined));
      assert BlockFrom([Body([])], req, "b", ByteLen("b")).Panics?;
      assert !IsInlinable(e);
      assert ElementLayout(e, req).Panics?;
      assert NodesFrom([e], req, [], 0).Panics?;
    }
  }

  /** The inlining branch as written loses an escape: the block `b` whose
      only text is "{" comes out with one brace fewer than its content. */
  lemma AsWrittenInlineUnescaped(req: Request)
    ensures Visible(Wrapped(InlineTextAsWritten("b", "{", req), req).text)
      != Visible(FlatElement(Block("b", [Body([Text("{")])])))
  {
    WrappedKeepsWords(InlineTextAsWritten("b", "{", req), req);
    AsWrittenInlineShows(req);
    InlineContentShows();
  }

  lemma AsWrittenInlineShows(req: Request)
    ensures |Visible(InlineTextAsWritten("b", "{", req))| == 4
  {
    PiecesVisible();
    assert Visible("b") == "b";
    if req.offset > 0 {
      Enclosed("b", "{", "{ ", " }");
    } else {
      Enclosed("b", "{", " { ", " }");
    }
  }

  lemma InlineContentShows()
    ensures |Visible(FlatElement(Block("b", [Body([Text("{")])])))| == 5
  {
    FlatInline("b", "{");
    assert Escaped("{") == "{{" by {
      assert EscapeChar('{') == "{{";
    }
    var flat := "b" + "{" + "{{" + "}";
    assert NoWhitespace(flat) by {
      assert flat == "b{{{}";
    }
    VisibleOfWord(flat);
  }
}
