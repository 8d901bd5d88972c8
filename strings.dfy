/** The behaviour of the Rust string operations the markup layer relies on:
    `char::is_whitespace` (the Unicode White_Space property), the UTF-8
    length `str::len` reports, `str::trim` and `str::replace` of one
    character. */
module Strings {

  /** `char::is_whitespace`: the characters with the Unicode White_Space
      property. */
  predicate IsWhitespace(c: char) {
    || ('\t' <= c <= '\r')
    || c == ' '
    || c == '\U{0085}'
    || c == '\U{00A0}'
    || c == '\U{1680}'
    || ('\U{2000}' <= c <= '\U{200A}')
    || c == '\U{2028}'
    || c == '\U{2029}'
    || c == '\U{202F}'
    || c == '\U{205F}'
    || c == '\U{3000}'
  }

  /** The number of bytes of a character in UTF-8. */
  function Utf8Len(c: char): (n: nat)
    ensures 1 <= n <= 4
    ensures n == 1 <==> (c as int) < 0x80
  {
    if (c as int) < 0x80 then 1
    else if (c as int) < 0x800 then 2
    else if (c as int) < 0x1_0000 then 3
    else 4
  }

  /** `str::len`: the number of bytes of a string in UTF-8. */
  function ByteLen(s: seq<char>): (n: nat)
    ensures |s| <= n <= 4 * |s|
  {
    if s == [] then 0 else Utf8Len(s[0]) + ByteLen(s[1..])
  }

  lemma {:induction false} ByteLenAppend(s: seq<char>, t: seq<char>)
    ensures ByteLen(s + t) == ByteLen(s) + ByteLen(t)
  {
    if s == [] {
      assert s + t == t;
    } else {
      assert (s + t)[0] == s[0] && (s + t)[1..] == s[1..] + t;
      ByteLenAppend(s[1..], t);
      assert ByteLen(s + t) == Utf8Len(s[0]) + ByteLen(s[1..] + t);
    }
  }

  /** No character of `s` is whitespace. */
  predicate NoWhitespace(s: seq<char>) {
    forall k :: 0 <= k < |s| ==> !IsWhitespace(s[k])
  }

  /** Neither the first nor the last character is whitespace. */
  predicate Trimmed(s: seq<char>) {
    s == [] || (!IsWhitespace(s[0]) && !IsWhitespace(s[|s| - 1]))
  }

  /** Only whitespace in `s`. */
  predicate AllWhitespace(s: seq<char>) {
    forall k :: 0 <= k < |s| ==> IsWhitespace(s[k])
  }

  /** For ASCII text the byte length is the character count. */
  lemma {:induction false} ByteLenAscii(s: seq<char>)
    requires forall k :: 0 <= k < |s| ==> (s[k] as int) < 0x80
    ensures ByteLen(s) == |s|
  {
    if s != [] {
      ByteLenAscii(s[1..]);
    }
  }

  /** `str::trim_start`: the longest suffix that does not start with
      whitespace. */
  function TrimStart(s: seq<char>): (r: seq<char>)
    ensures |r| <= |s| && r == s[|s| - |r|..]
    ensures r == [] || !IsWhitespace(r[0])
    ensures AllWhitespace(s[..|s| - |r|])
  {
    if s != [] && IsWhitespace(s[0]) then TrimStart(s[1..]) else s
  }

  /** `str::trim_end`: the longest prefix that does not end with
      whitespace. */
  function TrimEnd(s: seq<char>): (r: seq<char>)
    ensures |r| <= |s| && r == s[..|r|]
    ensures r == [] || !IsWhitespace(r[|r| - 1])
    ensures AllWhitespace(s[|r|..])
  {
    if s != [] && IsWhitespace(s[|s| - 1]) then
      var r := TrimEnd(s[..|s| - 1]);
      assert s[|r|..] == s[..|s| - 1][|r|..] + [s[|s| - 1]];
      r
    else s
  }

  /** `str::trim`. */
  function Trim(s: seq<char>): seq<char> {
    TrimEnd(TrimStart(s))
  }

  /** Trimming leaves nothing exactly when there is only whitespace. */
  lemma TrimEmpty(s: seq<char>)
    ensures Trim(s) == [] <==> AllWhitespace(s)
  {
    var t := TrimStart(s);
    var i := |s| - |t|;
    if TrimEnd(t) == [] {
      assert t[0..] == t;
      assert t == [];
      assert s[..i] == s;
    }
  }

  /** `s` with every whitespace character dropped. */
  function Visible(s: seq<char>): (r: seq<char>)
    ensures |r| <= |s|
    ensures NoWhitespace(r)
  {
    if s == [] then [] else if IsWhitespace(s[0]) then Visible(s[1..]) else [s[0]] + Visible(s[1..])
  }

  lemma {:induction false} VisibleAppend(s: seq<char>, t: seq<char>)
    ensures Visible(s + t) == Visible(s) + Visible(t)
  {
    if s == [] {
      assert s + t == t;
    } else {
      assert (s + t)[1..] == s[1..] + t;
      VisibleAppend(s[1..], t);
    }
  }

  lemma {:induction false} VisibleOfWhitespace(s: seq<char>)
    requires AllWhitespace(s)
    ensures Visible(s) == []
  {
    if s != [] {
      VisibleOfWhitespace(s[1..]);
    }
  }

  lemma {:induction false} VisibleOfWord(s: seq<char>)
    requires NoWhitespace(s)
    ensures Visible(s) == s
  {
    if s != [] {
      VisibleOfWord(s[1..]);
      assert s == [s[0]] + s[1..];
    }
  }

  /** `str::replace` of one character by a string. */
  function Replace(s: seq<char>, c: char, repl: seq<char>): (r: seq<char>)
    ensures c !in repl ==> c !in r
  {
    if s == [] then [] else (if s[0] == c then repl else [s[0]]) + Replace(s[1..], c, repl)
  }

  /** One brace character in markup text: written twice. */
  function EscapeChar(c: char): seq<char> {
    if c == '{' then "{{" else if c == '}' then "}}" else [c]
  }

  /** Every brace written twice, one character at a time. */
  function Escaped(s: seq<char>): (r: seq<char>)
    ensures |r| == |s| + |Braces(s)|
  {
    if s == [] then [] else EscapeChar(s[0]) + Escaped(s[1..])
  }

  /** The braces of `s`. */
  function Braces(s: seq<char>): seq<char> {
    if s == [] then [] else (if s[0] == '{' || s[0] == '}' then [s[0]] else []) + Braces(s[1..])
  }

  /** `text.replace("{", "{{").replace("}", "}}")` doubles every brace and
      changes nothing else. */
  lemma {:induction false} ReplaceBracesEscapes(s: seq<char>)
    ensures Replace(Replace(s, '{', "{{"), '}', "}}") == Escaped(s)
  {
    if s != [] {
      ReplaceBracesEscapes(s[1..]);
      var head := if s[0] == '{' then "{{" else [s[0]];
      ReplaceAppend(head, Replace(s[1..], '{', "{{"), '}', "}}");
      if s[0] == '{' {
        assert Replace(head, '}', "}}") == "{{" by {
          assert head[1..] == "{";
          assert Replace(head[1..], '}', "}}") == "{" + Replace([], '}', "}}");
        }
      } else {
        assert head[1..] == [];
      }
    }
  }

  lemma {:induction false} ReplaceAppend(s: seq<char>, t: seq<char>, c: char, repl: seq<char>)
    ensures Replace(s + t, c, repl) == Replace(s, c, repl) + Replace(t, c, repl)
  {
    if s == [] {
      assert s + t == t;
    } else {
      assert (s + t)[1..] == s[1..] + t;
      ReplaceAppend(s[1..], t, c, repl);
    }
  }

  /** The ends of a trimmed string are not whitespace. */
  lemma TrimEnds(s: seq<char>)
    ensures Trim(s) == [] || (!IsWhitespace(Trim(s)[0]) && !IsWhitespace(Trim(s)[|Trim(s)| - 1]))
  {
    var t := TrimStart(s);
    var r := TrimEnd(t);
    if r != [] {
      assert r[0] == t[0];
    }
  }

  /** The trimmed text has no whitespace at its ends and the visible
      characters of anything the untrimmed text shares them with. */
  lemma TrimShape(s: seq<char>, u: seq<char>)
    requires Visible(s) == Visible(u)
    ensures var t := Trim(s);
      && Trimmed(t)
      && Visible(t) == Visible(u)
  {
    TrimEnds(s);
    TrimVisible(s);
  }

  /** Trimming drops whitespace only. */
  lemma TrimVisible(s: seq<char>)
    ensures Visible(Trim(s)) == Visible(s)
  {
    TrimStartVisible(s);
    TrimEndVisible(TrimStart(s));
  }

  lemma TrimStartVisible(s: seq<char>)
    ensures Visible(TrimStart(s)) == Visible(s)
  {
    var t := TrimStart(s);
    var w := s[..|s| - |t|];
    assert s == w + t;
    VisibleAppend(w, t);
    VisibleOfWhitespace(w);
  }

  lemma TrimEndVisible(s: seq<char>)
    ensures Visible(TrimEnd(s)) == Visible(s)
  {
    var r := TrimEnd(s);
    var w := s[|r|..];
    assert s == r + w;
    VisibleAppend(r, w);
    VisibleOfWhitespace(w);
  }

  /** Text that neither starts nor ends with whitespace is its own trim. */
  lemma TrimmedAlready(s: seq<char>)
    requires s != [] && !IsWhitespace(s[0]) && !IsWhitespace(s[|s| - 1])
    ensures Trim(s) == s
  {
    assert TrimStart(s) == s;
  }
}
