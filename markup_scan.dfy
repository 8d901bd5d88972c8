/** The character-kind scanner shared by the two brace-markup parsers
    (src/ssss/parse.rs and parser/src/parse.rs): every character has a
    kind, and adjacent characters of the same kind are merged into one
    token. */
module MarkupScan {
  import opened Wrappers
  import opened Strings
  import Utils

  datatype TokenKind = Open | Close | Word | Whitespace | Newline

  /** `TokenKind::is_whitespace`. */
  predicate IsSpaceKind(k: TokenKind) {
    k == Whitespace || k == Newline
  }

  /** `determine_token_kind`. */
  function KindOf(c: char): (k: TokenKind)
    ensures k == Open <==> c == '{'
    ensures k == Close <==> c == '}'
    ensures k == Newline <==> c == '\n'
    ensures k == Whitespace <==> c == ' ' || c == '\t'
  {
    match c
    case '{' => Open
    case '}' => Close
    case '\n' => Newline
    case ' ' => Whitespace
    case '\t' => Whitespace
    case _ => Word
  }

  /** A token: its kind, its characters and the range `start..end` it
      spans. */
  datatype Token = Token(kind: TokenKind, value: seq<char>, start: nat, end: nat)

  /** The characters of a token are all of its kind. */
  predicate HasKind(t: Token) {
    forall j :: 0 <= j < |t.value| ==> KindOf(t.value[j]) == t.kind
  }

  /** Where the run of characters of kind `k` from `j` on ends. */
  function RunEnd(s: seq<char>, j: nat, k: TokenKind): (e: nat)
    requires j <= |s|
    ensures j <= e <= |s|
    ensures forall i :: j <= i < e ==> KindOf(s[i]) == k
    ensures e == |s| || KindOf(s[e]) != k
    decreases |s| - j
  {
    if j < |s| && KindOf(s[j]) == k then RunEnd(s, j + 1, k) else j
  }

  /** The maximal runs of one kind from character `pos` on, each with the
      character range it spans. */
  function Runs(s: seq<char>, pos: nat): seq<Token>
    requires pos <= |s|
    decreases |s| - pos
  {
    if pos == |s| then []
    else
      var k := KindOf(s[pos]);
      var e := RunEnd(s, pos + 1, k);
      [Token(k, s[pos..e], pos, e)] + Runs(s, e)
  }

  /** What `scan` returns: the runs, except that the last one ends at the
      byte length of the source (`source.len()`) rather than at its
      character count. */
  function Scanned(s: seq<char>): seq<Token> {
    var rs := Runs(s, 0);
    if rs == [] then [] else rs[..|rs| - 1] + [rs[|rs| - 1].(end := ByteLen(s))]
  }

  /** Every run from `pos` on is its own run: `start` is where it begins. */
  lemma RunsHead(s: seq<char>, pos: nat, k: TokenKind, i: nat)
    requires pos < i <= |s| && k == KindOf(s[pos])
    requires forall j :: pos <= j < i ==> KindOf(s[j]) == k
    requires i == |s| || KindOf(s[i]) != k
    ensures Runs(s, pos) == [Token(k, s[pos..i], pos, i)] + Runs(s, i)
  {
    RunEndAt(s, pos + 1, k, i);
  }

  lemma {:induction false} RunEndAt(s: seq<char>, j: nat, k: TokenKind, i: nat)
    requires j <= i <= |s|
    requires forall m :: j <= m < i ==> KindOf(s[m]) == k
    requires i == |s| || KindOf(s[i]) != k
    ensures RunEnd(s, j, k) == i
    decreases i - j
  {
    if j < i {
      RunEndAt(s, j + 1, k, i);
    }
  }

  /** `scan`: a loop over the characters with the pending kind, its
      characters and where it started, pushing a token whenever the kind
      changes and once more at the end. */
  method Scan(source: seq<char>) returns (tokens: seq<Token>)
    ensures tokens == Scanned(source)
  {
    tokens := [];
    var current: Option<TokenKind> := None;
    var buffer: seq<char> := [];
    var start: nat := 0;
    for i := 0 to |source|
      invariant current.None? <==> i == 0
      invariant i == 0 ==> tokens == [] && start == 0
      invariant i > 0 ==> Pending(source, i, tokens, current.value, buffer, start)
    {
      var next := KindOf(source[i]);
      if current == Some(next) {
        ExtendRun(source, i, tokens, next, buffer, start);
        buffer := buffer + [source[i]];
      } else {
        if current.Some? {
          CloseRun(source, i, tokens, current.value, buffer, start);
          tokens := tokens + [Token(current.value, buffer, start, i)];
        }
        buffer := [source[i]];
        current := Some(next);
        start := i;
      }
    }
    if current.Some? {
      ScanFinish(source, tokens, current.value, buffer, start);
      tokens := tokens + [Token(current.value, buffer, start, ByteLen(source))];
    } else {
      assert Runs(source, 0) == [];
    }
  }

  /** The state of `scan` after `i` characters: the tokens pushed so far
      are the first runs, and the pending characters from `start` on are of
      kind `k`. */
  predicate Pending(s: seq<char>, i: nat, tokens: seq<Token>, k: TokenKind, buffer: seq<char>, start: nat) {
    && start < i <= |s| && k == KindOf(s[start]) && buffer == s[start..i]
    && (forall j :: start <= j < i ==> KindOf(s[j]) == k)
    && Runs(s, 0) == tokens + Runs(s, start)
  }

  /** A character of the pending kind joins the pending run. */
  lemma ExtendRun(s: seq<char>, i: nat, tokens: seq<Token>, k: TokenKind, buffer: seq<char>, start: nat)
    requires Pending(s, i, tokens, k, buffer, start) && i < |s| && KindOf(s[i]) == k
    ensures Pending(s, i + 1, tokens, k, buffer + [s[i]], start)
  {
    assert s[start..i + 1] == s[start..i] + [s[i]];
  }

  /** A character of another kind ends the pending run: it is the next
      token. */
  lemma CloseRun(s: seq<char>, i: nat, tokens: seq<Token>, k: TokenKind, buffer: seq<char>, start: nat)
    requires Pending(s, i, tokens, k, buffer, start) && i < |s| && KindOf(s[i]) != k
    ensures Pending(s, i + 1, tokens + [Token(k, buffer, start, i)], KindOf(s[i]), [s[i]], i)
  {
    RunsHead(s, start, k, i);
    Utils.AppendAssoc(tokens, [Token(k, buffer, start, i)], Runs(s, i));
  }

  /** At the end the pending run is the last token, ending at the byte
      length. */
  lemma ScanFinish(s: seq<char>, tokens: seq<Token>, k: TokenKind, buffer: seq<char>, start: nat)
    requires Pending(s, |s|, tokens, k, buffer, start)
    ensures tokens + [Token(k, buffer, start, ByteLen(s))] == Scanned(s)
  {
    RunsHead(s, start, k, |s|);
    assert Runs(s, |s|) == [];
    var t := Token(k, buffer, start, |s|);
    assert Runs(s, start) == [t] + [];
    var rs := Runs(s, 0);
    assert rs == tokens + [t];
    assert rs[..|rs| - 1] == tokens && rs[|rs| - 1] == t;
  }

  /** The characters of the tokens, one after another. */
  function Values(ts: seq<Token>): seq<char> {
    if ts == [] then [] else ts[0].value + Values(ts[1..])
  }

  /** The runs from `pos` on spell out the source from `pos` on. */
  lemma {:induction false} RunsValues(s: seq<char>, pos: nat)
    requires pos <= |s|
    ensures Values(Runs(s, pos)) == s[pos..]
    decreases |s| - pos
  {
    if pos < |s| {
      var k := KindOf(s[pos]);
      var e := RunEnd(s, pos + 1, k);
      RunsValues(s, e);
      var rs := Runs(s, pos);
      assert rs[0].value == s[pos..e] && rs[1..] == Runs(s, e);
      assert s[pos..] == s[pos..e] + s[e..];
    }
  }

  /** The `i`-th run from `pos` on: a run that starts at a character of its
      kind and ends where that kind does, with the later runs behind it. */
  lemma {:induction false} RunAt(s: seq<char>, pos: nat, i: nat)
    requires pos <= |s| && i < |Runs(s, pos)|
    ensures var r := Runs(s, pos)[i];
      && pos <= r.start < |s| && r.kind == KindOf(s[r.start]) && r.end == RunEnd(s, r.start + 1, r.kind)
      && r.value == s[r.start..r.end]
      && Runs(s, pos)[i..] == Runs(s, r.start)
    decreases i
  {
    var k := KindOf(s[pos]);
    var e := RunEnd(s, pos + 1, k);
    var rs := Runs(s, pos);
    assert rs[1..] == Runs(s, e);
    if i > 0 {
      RunAt(s, e, i - 1);
      assert rs[i] == Runs(s, e)[i - 1];
      assert rs[i..] == Runs(s, e)[i - 1..];
    }
  }

  /** Each run is a non-empty slice of characters of its own kind, and its
      successor starts where it ends and has another kind. */
  lemma RunShape(s: seq<char>, pos: nat, i: nat)
    requires pos <= |s| && i < |Runs(s, pos)|
    ensures var rs := Runs(s, pos);
      && rs[i].start < rs[i].end <= |s| && rs[i].value == s[rs[i].start..rs[i].end]
      && HasKind(rs[i])
      && (i + 1 < |rs| ==> rs[i].end == rs[i + 1].start && rs[i].kind != rs[i + 1].kind)
      && (i + 1 == |rs| ==> rs[i].end == |s|)
  {
    RunAt(s, pos, i);
    var rs := Runs(s, pos);
    var r := rs[i];
    var tail := Runs(s, r.start);
    assert tail[1..] == Runs(s, r.end);
    assert forall j :: 0 <= j < |r.value| ==> r.value[j] == s[r.start + j];
    if i + 1 < |rs| {
      assert rs[i + 1] == tail[1] == Runs(s, r.end)[0];
    } else {
      assert Runs(s, r.end) == [];
    }
  }

  /** `scan` spells out the source: the values of its tokens, one after
      another, are the source, and there are tokens exactly when the source
      is not empty. */
  lemma ScanValues(s: seq<char>)
    ensures Values(Scanned(s)) == s
    ensures Scanned(s) == [] <==> s == []
  {
    var rs := Runs(s, 0);
    RunsValues(s, 0);
    var ts := Scanned(s);
    if rs != [] {
      var n := |rs| - 1;
      assert forall i :: 0 <= i < n ==> ts[i] == rs[i];
      assert ts[n] == rs[n].(end := ByteLen(s));
      ValuesSameValues(ts, rs);
    }
  }

  /** `scan` merges adjacent characters of the same kind: each token is a
      non-empty run of characters of its kind, the next token starts where
      it ends and has another kind, the first starts at character 0 and the
      last ends at the byte length of the source. */
  lemma ScanToken(s: seq<char>, i: nat)
    requires i < |Scanned(s)|
    ensures var ts := Scanned(s);
      && ts[i].value != [] && ts[i].start < |s|
      && HasKind(ts[i])
      && (i == 0 ==> ts[i].start == 0)
      && (i + 1 < |ts| ==> ts[i].end == ts[i + 1].start && ts[i].kind != ts[i + 1].kind)
      && (i + 1 == |ts| ==> ts[i].end == ByteLen(s))
  {
    var rs := Runs(s, 0);
    ScannedAt(s, i);
    RunShape(s, 0, i);
    if i == 0 {
      RunAt(s, 0, 0);
      assert rs[0..] == rs;
    }
    if i + 1 < |rs| {
      ScannedAt(s, i + 1);
      RunShape(s, 0, i + 1);
    }
  }

  /** The `i`-th token of `scan` is the `i`-th run, the last one with its
      end moved to the byte length. */
  lemma ScannedAt(s: seq<char>, i: nat)
    requires i < |Scanned(s)|
    ensures |Scanned(s)| == |Runs(s, 0)|
    ensures i + 1 < |Runs(s, 0)| ==> Scanned(s)[i] == Runs(s, 0)[i]
    ensures i + 1 == |Runs(s, 0)| ==> Scanned(s)[i] == Runs(s, 0)[i].(end := ByteLen(s))
  {
    var rs := Runs(s, 0);
    var n := |rs| - 1;
    assert Scanned(s) == rs[..n] + [rs[n].(end := ByteLen(s))];
    if i < n {
      assert Scanned(s)[i] == rs[..n][i];
    }
  }

  lemma {:induction false} ValuesSameValues(ts: seq<Token>, rs: seq<Token>)
    requires |ts| == |rs| && forall i :: 0 <= i < |ts| ==> ts[i].value == rs[i].value
    ensures Values(ts) == Values(rs)
  {
    if ts != [] {
      ValuesSameValues(ts[1..], rs[1..]);
    }
  }

  /** The last end is a byte count: for a source with a character outside
      ASCII it lies past the character count. */
  lemma LastEndCountsBytes()
    ensures var ts := Scanned("é");
      |ts| == 1 && ts[0].end == 2 && |"é"| == 1
  {
    var s := "é";
    assert Runs(s, 1) == [];
    assert ByteLen(s) == 2;
  }
}
