/** The token scanner of the ssss markup (src/ssss/scan.rs): a source is
    cut into braces, runs of whitespace and words, where a doubled brace is
    a word holding one brace. */
module SsssScan {
  import opened Wrappers
  import opened Strings
  import Utils

  datatype Token = Open | Close | Whitespace(text: seq<char>) | Word(text: seq<char>)

  /** A token with the character offsets `start..end` it spans. */
  datatype Positioned = Positioned(data: Token, start: nat, end: nat)

  /** `belongs_to_word`. */
  predicate BelongsToWord(c: char) {
    c != '{' && c != '}' && !IsWhitespace(c)
  }

  /** Where the run of whitespace from `i` on ends. */
  function WhitespaceEnd(s: seq<char>, i: nat): (j: nat)
    requires i <= |s|
    ensures i <= j <= |s|
    ensures forall k :: i <= k < j ==> IsWhitespace(s[k])
    ensures j == |s| || !IsWhitespace(s[j])
    decreases |s| - i
  {
    if i < |s| && IsWhitespace(s[i]) then WhitespaceEnd(s, i + 1) else i
  }

  /** Where the run of word characters from `i` on ends. */
  function WordEnd(s: seq<char>, i: nat): (j: nat)
    requires i <= |s|
    ensures i <= j <= |s|
    ensures forall k :: i <= k < j ==> BelongsToWord(s[k])
    ensures j == |s| || !BelongsToWord(s[j])
    decreases |s| - i
  {
    if i < |s| && BelongsToWord(s[i]) then WordEnd(s, i + 1) else i
  }

  /** The token that starts at character `pos`, and where it ends. */
  function TokenAt(s: seq<char>, pos: nat): (r: (Token, nat))
    requires pos < |s|
    ensures pos < r.1 <= |s|
  {
    var c := s[pos];
    var next: Option<char> := if pos + 1 < |s| then Some(s[pos + 1]) else None;
    if c == '{' && next == Some('{') then (Word("{"), pos + 2)
    else if c == '}' && next == Some('}') then (Word("}"), pos + 2)
    else if c == '{' then (Open, pos + 1)
    else if c == '}' then (Close, pos + 1)
    else if IsWhitespace(c) then
      var e := WhitespaceEnd(s, pos + 1);
      (Whitespace(s[pos..e]), e)
    else
      var e := WordEnd(s, pos + 1);
      (Word(s[pos..e]), e)
  }

  /** The shapes of a token: a lone brace is Open or Close, a doubled
      brace is a word holding one brace and spanning both, and otherwise the
      token is a non-empty maximal run of whitespace or of word
      characters. */
  lemma TokenAtShape(s: seq<char>, pos: nat)
    requires pos < |s|
    ensures var r := TokenAt(s, pos);
      && (r.0 == Open <==> s[pos] == '{' && (pos + 1 == |s| || s[pos + 1] != '{'))
      && (r.0 == Close <==> s[pos] == '}' && (pos + 1 == |s| || s[pos + 1] != '}'))
      && (r.0.Whitespace? ==>
        && r.0.text == s[pos..r.1] && r.0.text != [] && AllWhitespace(r.0.text)
        && (r.1 == |s| || !IsWhitespace(s[r.1])))
      && (r.0.Word? ==>
        || (r.0.text == [s[pos]] && (s[pos] == '{' || s[pos] == '}') && r.1 == pos + 2 && s[pos + 1] == s[pos])
        || (&& r.0.text == s[pos..r.1] && r.0.text != []
            && (forall k :: 0 <= k < |r.0.text| ==> BelongsToWord(r.0.text[k]))
            && (r.1 == |s| || !BelongsToWord(s[r.1]))))
  {
    var r := TokenAt(s, pos);
    if r.0.Whitespace? {
      assert forall k :: 0 <= k < |r.0.text| ==> r.0.text[k] == s[pos + k];
    }
    if r.0.Word? && r.1 != pos + 2 {
      assert forall k :: 0 <= k < |r.0.text| ==> r.0.text[k] == s[pos + k];
    }
  }

  /** The tokens the iterator yields from character `pos` to the end. */
  function TokensFrom(s: seq<char>, pos: nat): seq<Positioned>
    requires pos <= |s|
    decreases |s| - pos
  {
    if pos == |s| then []
    else
      var (t, e) := TokenAt(s, pos);
      [Positioned(t, pos, e)] + TokensFrom(s, e)
  }

  /** `Tokenizable::tokens`, run to the end. */
  function Tokens(s: seq<char>): seq<Positioned> {
    TokensFrom(s, 0)
  }

  /** `Tokenizable::tokens`; the `Peekable<Chars>` is the source and the
      number of characters taken from it. */
  class TokenIter {
    const source: seq<char>
    var consumed: nat
    var offset: nat

    /** `offset` counts the characters taken, and once more for every
        `advance` past the end. */
    ghost predicate Valid()
      reads this
    {
      consumed <= |source| && consumed <= offset && (consumed < offset ==> consumed == |source|)
    }

    /** `TokenIter::from_source`. */
    constructor (source: seq<char>)
      ensures this.source == source && consumed == 0 && offset == 0 && Valid()
    {
      this.source := source;
      consumed := 0;
      offset := 0;
    }

    /** `Peekable::peek`. */
    method Peek() returns (c: Option<char>)
      requires Valid()
      ensures c == if consumed < |source| then Some(source[consumed]) else None
    {
      if consumed < |source| {
        c := Some(source[consumed]);
      } else {
        c := None;
      }
    }

    /** `advance`: counts one more character, whether or not there is one. */
    method Advance() returns (c: Option<char>)
      requires Valid()
      modifies this
      ensures Valid() && offset == old(offset) + 1
      ensures old(consumed) < |source| ==> c == Some(source[old(consumed)]) && consumed == old(consumed) + 1
      ensures old(consumed) == |source| ==> c == None && consumed == old(consumed)
    {
      offset := offset + 1;
      if consumed < |source| {
        c := Some(source[consumed]);
        consumed := consumed + 1;
      } else {
        c := None;
      }
    }

    /** `Iterator::next`: the next token with the offsets it spans, or
        nothing at the end of the source. */
    method Next() returns (r: Option<Positioned>)
      requires Valid()
      modifies this
      ensures Valid()
      ensures old(consumed) == |source| ==> r == None && consumed == old(consumed) && offset == old(offset) + 1
      ensures old(consumed) < |source| ==>
        var (t, e) := TokenAt(source, old(consumed));
        && r == Some(Positioned(t, old(offset), offset))
        && consumed == e && offset == old(offset) + (e - old(consumed))
    {
      var start := offset;
      ghost var pos := consumed;
      var current := Advance();
      if current.None? {
        return None;
      }
      var c := current.value;
      var peek := Peek();
      var token: Token;
      if c == '{' && peek == Some('{') {
        var _ := Advance();
        token := Word("{");
      } else if c == '}' && peek == Some('}') {
        var _ := Advance();
        token := Word("}");
      } else if c == '{' {
        token := Open;
      } else if c == '}' {
        token := Close;
      } else if IsWhitespace(c) {
        var whitespace := ReadWhitespace(c, pos);
        token := Whitespace(whitespace);
      } else {
        var word := ReadWord(c, pos);
        token := Word(word);
      }
      return Some(Positioned(token, start, offset));
    }

    /** The loop of `next` that takes the rest of a run of whitespace. */
    method ReadWhitespace(c: char, ghost pos: nat) returns (whitespace: seq<char>)
      requires Valid() && consumed == pos + 1 && pos < |source| && source[pos] == c && IsWhitespace(c)
      modifies this
      ensures Valid()
      ensures consumed == WhitespaceEnd(source, pos + 1) && offset == old(offset) + (consumed - old(consumed))
      ensures whitespace == source[pos..consumed]
    {
      ghost var start := offset;
      whitespace := [c];
      var peek := Peek();
      while peek.Some? && IsWhitespace(peek.value)
        invariant Valid() && pos < consumed <= |source|
        invariant offset == start + (consumed - (pos + 1))
        invariant whitespace == source[pos..consumed]
        invariant WhitespaceEnd(source, consumed) == WhitespaceEnd(source, pos + 1)
        invariant peek == if consumed < |source| then Some(source[consumed]) else None
        decreases |source| - consumed
      {
        whitespace := whitespace + [peek.value];
        var _ := Advance();
        peek := Peek();
      }
    }

    /** The loop of `next` that takes the rest of a word. */
    method ReadWord(c: char, ghost pos: nat) returns (word: seq<char>)
      requires Valid() && consumed == pos + 1 && pos < |source| && source[pos] == c
      modifies this
      ensures Valid()
      ensures consumed == WordEnd(source, pos + 1) && offset == old(offset) + (consumed - old(consumed))
      ensures word == source[pos..consumed]
    {
      ghost var start := offset;
      word := [c];
      var peek := Peek();
      while peek.Some? && BelongsToWord(peek.value)
        invariant Valid() && pos < consumed <= |source|
        invariant offset == start + (consumed - (pos + 1))
        invariant word == source[pos..consumed]
        invariant WordEnd(source, consumed) == WordEnd(source, pos + 1)
        invariant peek == if consumed < |source| then Some(source[consumed]) else None
        decreases |source| - consumed
      {
        var next := Advance();
        word := word + [next.value];
        peek := Peek();
      }
    }
  }

  /** What a token stands for in the source: a brace for Open and Close,
      and a word with its braces doubled. */
  function Render(t: Token): seq<char> {
    match t
    case Open => "{"
    case Close => "}"
    case Whitespace(text) => text
    case Word(text) => Escaped(text)
  }

  function RenderAll(ts: seq<Positioned>): seq<char> {
    if ts == [] then [] else Render(ts[0].data) + RenderAll(ts[1..])
  }

  lemma {:induction false} EscapedPlain(w: seq<char>)
    requires forall k :: 0 <= k < |w| ==> BelongsToWord(w[k])
    ensures Escaped(w) == w
  {
    if w != [] {
      EscapedPlain(w[1..]);
      assert w == [w[0]] + w[1..];
    }
  }

  /** One token stands for exactly the characters it spans. */
  lemma RenderToken(s: seq<char>, pos: nat)
    requires pos < |s|
    ensures Render(TokenAt(s, pos).0) == s[pos..TokenAt(s, pos).1]
  {
    var (t, e) := TokenAt(s, pos);
    TokenAtShape(s, pos);
    if t.Word? && e == pos + 2 && t.text == [s[pos]] && s[pos + 1] == s[pos] {
      assert s[pos..e] == [s[pos], s[pos + 1]];
    } else if t.Word? {
      EscapedPlain(t.text);
    }
  }

  /** The tokens spell out the source: rendering them one after another
      gives back every character from `pos` on. */
  lemma {:induction false} TokensRender(s: seq<char>, pos: nat)
    requires pos <= |s|
    ensures RenderAll(TokensFrom(s, pos)) == s[pos..]
    decreases |s| - pos
  {
    if pos < |s| {
      var e := TokenAt(s, pos).1;
      RenderStep(s, pos);
      TokensRender(s, e);
      RenderToken(s, pos);
      Utils.SplitAt(s, pos, e);
    }
  }

  /** Rendering the tokens from `pos` renders the first, then the rest. */
  lemma RenderStep(s: seq<char>, pos: nat)
    requires pos < |s|
    ensures RenderAll(TokensFrom(s, pos)) == Render(TokenAt(s, pos).0) + RenderAll(TokensFrom(s, TokenAt(s, pos).1))
  {
    var ts := TokensFrom(s, pos);
    assert ts[0].data == TokenAt(s, pos).0 && ts[1..] == TokensFrom(s, TokenAt(s, pos).1);
  }

  /** The tokens cover the source without gap or overlap: the first starts
      at `pos`, each starts where the previous one ended, each spans at
      least one character and the last ends at the end of the source. */
  lemma {:induction false} TokensContiguous(s: seq<char>, pos: nat)
    requires pos <= |s|
    ensures var ts := TokensFrom(s, pos);
      && (ts == [] <==> pos == |s|)
      && (ts != [] ==> ts[0].start == pos && ts[|ts| - 1].end == |s|)
      && (forall i :: 0 <= i < |ts| ==> ts[i].start < ts[i].end)
      && (forall i :: 0 <= i < |ts| - 1 ==> ts[i].end == ts[i + 1].start)
    decreases |s| - pos
  {
    if pos < |s| {
      var (t, e) := TokenAt(s, pos);
      TokensContiguous(s, e);
      var ts := TokensFrom(s, pos);
      var rest := TokensFrom(s, e);
      assert ts == [Positioned(t, pos, e)] + rest;
      assert forall i :: 0 < i < |ts| ==> ts[i] == rest[i - 1];
    }
  }

  /** Every token is one of the shapes of the scanner: a lone brace read as
      Open or Close, a doubled brace read as a one-brace word, or a maximal
      run of whitespace or of word characters. */
  lemma TokenShapes(s: seq<char>, i: nat)
    requires i < |Tokens(s)|
    ensures var p := Tokens(s)[i];
      && p.start < p.end <= |s|
      && TokenAt(s, p.start) == (p.data, p.end)
  {
    TokenHeads(s, 0, i);
  }

  lemma {:induction false} TokenHeads(s: seq<char>, pos: nat, i: nat)
    requires pos <= |s| && i < |TokensFrom(s, pos)|
    ensures var p := TokensFrom(s, pos)[i];
      && pos <= p.start < |s| && p.start < p.end <= |s|
      && TokenAt(s, p.start) == (p.data, p.end)
    decreases |s| - pos
  {
    var (t, e) := TokenAt(s, pos);
    if i > 0 {
      TokenHeads(s, e, i - 1);
      assert TokensFrom(s, pos)[i] == TokensFrom(s, e)[i - 1];
    }
  }

  /** Two whitespace tokens never follow each other, nor two tokens of
      word characters: the runs are maximal. */
  lemma RunsMaximal(s: seq<char>, i: nat)
    requires i + 1 < |Tokens(s)|
    ensures var ts := Tokens(s);
      && !(ts[i].data.Whitespace? && ts[i + 1].data.Whitespace?)
      && !(ts[i].data.Word? && ts[i].end - ts[i].start == |ts[i].data.text| &&
           ts[i + 1].data.Word? && ts[i + 1].end - ts[i + 1].start == |ts[i + 1].data.text|)
  {
    var ts := Tokens(s);
    TokensContiguous(s, 0);
    TokenShapes(s, i);
    TokenShapes(s, i + 1);
    TokenAtShape(s, ts[i].start);
    TokenAtShape(s, ts[i + 1].start);
    var e := ts[i].end;
    assert e == ts[i + 1].start;
  }
}
