/**
 * The string primitives the build-script output parser relies on, as the Rust
 * standard library of the period defines them: `char::is_whitespace`,
 * `str::splitn(2, c)`, `str::trim_right`, `str::trim`, `str::lines` and
 * "split on whitespace, drop empty pieces".  Each is a function whose contract
 * characterises its result; the renderers `JoinLines` and `JoinWords` are the
 * inverses used by the round-trip lemmas.
 */
module Text {
  import opened Wrappers

  /** Unicode White_Space, the set `char::is_whitespace` accepts. */
  predicate IsWhitespace(c: char) {
    || ('\t' <= c <= '\r')
    || c == ' '
    || c == '\U{85}'
    || c == '\U{A0}'
    || c == '\U{1680}'
    || ('\U{2000}' <= c <= '\U{200A}')
    || c == '\U{2028}'
    || c == '\U{2029}'
    || c == '\U{202F}'
    || c == '\U{205F}'
    || c == '\U{3000}'
  }

  /** A non-empty run of non-whitespace characters. */
  predicate IsWord(w: string) {
    w != [] && forall i :: 0 <= i < |w| ==> !IsWhitespace(w[i])
  }

  /**
   * `s.splitn(2, c)`: the text before the first `c`, and the text after it
   * when there is one.
   */
  function SplitOnce(s: string, c: char): (string, Option<string>) {
    if s == [] then ([], None)
    else if s[0] == c then ([], Some(s[1..]))
    else
      var (head, tail) := SplitOnce(s[1..], c);
      ([s[0]] + head, tail)
  }

  /**
   * There is no second part exactly when `c` does not occur, and then the
   * first part is the whole text; otherwise the text is the first part, `c`
   * and the second part, and the first part holds no `c`.
   */
  lemma {:induction false} SplitOnceSpec(s: string, c: char)
    ensures var r := SplitOnce(s, c);
      && (r.1.None? <==> c !in s)
      && (r.1.None? ==> r.0 == s)
      && (r.1.Some? ==> s == r.0 + [c] + r.1.value && c !in r.0)
  {
    if s != [] && s[0] != c {
      var tail := s[1..];
      SplitOnceSpec(tail, c);
      var r := SplitOnce(tail, c);
      assert s == [s[0]] + tail;
      if r.1.Some? {
        assert s == ([s[0]] + r.0) + [c] + r.1.value;
      }
    }
  }

  /** Splitting `head + [c] + tail` at its first `c` gives back the parts. */
  lemma {:induction false} SplitOnceJoin(head: string, c: char, tail: string)
    requires c !in head
    ensures SplitOnce(head + [c] + tail, c) == (head, Some(tail))
  {
    var s := head + [c] + tail;
    if head == [] {
      assert s[0] == c && s[1..] == tail;
    } else {
      assert s[0] == head[0] && s[1..] == head[1..] + [c] + tail;
      SplitOnceJoin(head[1..], c, tail);
      assert [head[0]] + head[1..] == head;
    }
  }

  /** `s.trim_right()`: `s` without its trailing whitespace. */
  function TrimEnd(s: string): (r: string)
    ensures r <= s
    ensures r == [] || !IsWhitespace(r[|r| - 1])
  {
    if s == [] || !IsWhitespace(s[|s| - 1]) then s else TrimEnd(s[..|s| - 1])
  }

  /** `trim_right` removes whitespace only. */
  lemma {:induction false} TrimEndRemovesWhitespace(s: string)
    ensures forall i :: |TrimEnd(s)| <= i < |s| ==> IsWhitespace(s[i])
  {
    if s != [] && IsWhitespace(s[|s| - 1]) {
      var init := s[..|s| - 1];
      TrimEndRemovesWhitespace(init);
      assert forall i :: 0 <= i < |init| ==> init[i] == s[i];
    }
  }

  /** `s.trim_left()`: `s` without its leading whitespace. */
  function TrimStart(s: string): (r: string)
    ensures |r| <= |s| && r == s[|s| - |r|..]
    ensures r == [] || !IsWhitespace(r[0])
  {
    if s == [] || !IsWhitespace(s[0]) then s else TrimStart(s[1..])
  }

  /** `trim_left` removes whitespace only. */
  lemma {:induction false} TrimStartRemovesWhitespace(s: string)
    ensures forall i :: 0 <= i < |s| - |TrimStart(s)| ==> IsWhitespace(s[i])
  {
    if s != [] && IsWhitespace(s[0]) {
      var tail := s[1..];
      TrimStartRemovesWhitespace(tail);
      assert TrimStart(s) == TrimStart(tail);
      forall i | 0 <= i < |s| - |TrimStart(s)|
        ensures IsWhitespace(s[i])
      {
        if i > 0 {
          assert s[i] == tail[i - 1];
        }
      }
    }
  }

  /** `s.trim()`: whitespace removed at both ends. */
  function Trim(s: string): (r: string)
    ensures r == [] || (!IsWhitespace(r[0]) && !IsWhitespace(r[|r| - 1]))
  {
    var e := TrimEnd(s);
    var r := TrimStart(e);
    assert r != [] ==> r[|r| - 1] == e[|e| - 1];
    r
  }

  /** A text of whitespace only (possibly empty). */
  predicate Blank(t: string) {
    forall k :: 0 <= k < |t| ==> IsWhitespace(t[k])
  }

  /**
   * `trim` removes whitespace only, and only at the ends: the text is the
   * result with nothing but whitespace around it.
   */
  lemma TrimRemovesWhitespace(s: string)
    ensures exists lead, trail :: Blank(lead) && Blank(trail) && s == lead + Trim(s) + trail
  {
    var e := TrimEnd(s);
    var trail := s[|e|..];
    var lead := e[..|e| - |TrimStart(e)|];
    TrimEndSplit(s);
    TrimStartSplit(e);
    assert Trim(s) == TrimStart(e);
    assert s == lead + Trim(s) + trail;
    assert Blank(lead) && Blank(trail);
  }

  /** A text is its `trim_right` followed by blank text. */
  lemma TrimEndSplit(s: string)
    ensures var e := TrimEnd(s); s == e + s[|e|..] && Blank(s[|e|..])
  {
    TrimEndRemovesWhitespace(s);
  }

  /** A text is blank text followed by its `trim_left`. */
  lemma TrimStartSplit(e: string)
    ensures var r := TrimStart(e); e == e[..|e| - |r|] + r && Blank(e[..|e| - |r|])
  {
    TrimStartRemovesWhitespace(e);
  }

  /** The longest prefix of `s` free of whitespace. */
  function WordPrefix(s: string): (w: string)
    ensures w <= s
    ensures forall i :: 0 <= i < |w| ==> !IsWhitespace(w[i])
    ensures |w| == |s| || IsWhitespace(s[|w|])
  {
    if s == [] || IsWhitespace(s[0]) then [] else [s[0]] + WordPrefix(s[1..])
  }

  /**
   * `s.split(char::is_whitespace).filter(non-blank)`: the maximal runs of
   * non-whitespace characters, in order.
   */
  function Tokens(s: string): (ts: seq<string>)
    ensures forall i :: 0 <= i < |ts| ==> IsWord(ts[i])
    decreases |s|
  {
    if s == [] then []
    else if IsWhitespace(s[0]) then Tokens(s[1..])
    else
      var w := WordPrefix(s);
      assert w != [] by {
        assert !IsWhitespace(s[0]);
      }
      var rest := Tokens(s[|w|..]);
      WordsCons(w, rest);
      [w] + rest
  }

  lemma WordsCons(w: string, ws: seq<string>)
    requires IsWord(w)
    requires forall i :: 0 <= i < |ws| ==> IsWord(ws[i])
    ensures forall i :: 0 <= i < |ws| + 1 ==> IsWord(([w] + ws)[i])
  {
    forall i | 0 <= i < |ws| + 1
      ensures IsWord(([w] + ws)[i])
    {
      if i > 0 {
        assert ([w] + ws)[i] == ws[i - 1];
      }
    }
  }

  /**
   * `s.lines()`, taken here as splitting at `'\n'` only: the pieces
   * between `'\n'` characters, without the empty piece after a final
   * `'\n'`.  A `'\r'` before a `'\n'` stays part of its line.
   */
  function Lines(s: string): (ls: seq<string>)
    ensures forall i :: 0 <= i < |ls| ==> '\n' !in ls[i]
    decreases |s|
  {
    if s == [] then []
    else
      SplitOnceSpec(s, '\n');
      match SplitOnce(s, '\n')
      case (line, None) => [line]
      case (line, Some(rest)) => [line] + Lines(rest)
  }

  /** Text with every line followed by `'\n'`: what a script prints. */
  function JoinLines(ls: seq<string>): string {
    if ls == [] then [] else ls[0] + "\n" + JoinLines(ls[1..])
  }

  /**
   * Printing the lines of a text one per line gives the text back, with a
   * final `'\n'` added when it had none.
   */
  lemma {:induction false} JoinLinesOfLines(s: string)
    ensures JoinLines(Lines(s)) == if s == [] || s[|s| - 1] == '\n' then s else s + "\n"
    decreases |s|
  {
    if s != [] {
      SplitOnceSpec(s, '\n');
      var (line, rest) := SplitOnce(s, '\n');
      if rest.None? {
        assert Lines(s) == [s];
        assert JoinLines([s]) == s + "\n" + JoinLines([]);
        assert s[|s| - 1] in s;
      } else {
        var r := rest.value;
        assert Lines(s) == [line] + Lines(r);
        assert JoinLines(Lines(s)) == line + "\n" + JoinLines(Lines(r));
        JoinLinesOfLines(r);
        assert s == line + "\n" + r;
        if r != [] {
          assert s[|s| - 1] == r[|r| - 1];
        }
      }
    }
  }

  /** Words separated by single spaces. */
  function JoinWords(ws: seq<string>): string {
    if ws == [] then [] else if |ws| == 1 then ws[0] else ws[0] + " " + JoinWords(ws[1..])
  }

  /** `Lines` undoes `JoinLines` when no line holds a newline. */
  lemma {:induction false} LinesOfJoinLines(ls: seq<string>)
    requires forall i :: 0 <= i < |ls| ==> '\n' !in ls[i]
    ensures Lines(JoinLines(ls)) == ls
  {
    if ls != [] {
      var rest := JoinLines(ls[1..]);
      assert JoinLines(ls) == ls[0] + ['\n'] + rest;
      SplitOnceJoin(ls[0], '\n', rest);
      LinesOfJoinLines(ls[1..]);
      if rest == [] {
        assert ls[1..] == [];
      }
    }
  }

  /** The whitespace-free prefix of a word followed by whitespace is the word. */
  lemma {:induction false} WordPrefixOfWord(w: string, tail: string)
    requires IsWord(w)
    requires tail == [] || IsWhitespace(tail[0])
    ensures WordPrefix(w + tail) == w
  {
    var s := w + tail;
    assert s[0] == w[0];
    assert s[1..] == w[1..] + tail;
    if |w| > 1 {
      WordPrefixOfWord(w[1..], tail);
    }
  }

  /** A text that starts with a word: its first token is that word. */
  lemma TokensOfWordThen(w: string, tail: string)
    requires IsWord(w)
    requires tail == [] || IsWhitespace(tail[0])
    ensures Tokens(w + tail) == [w] + Tokens(tail)
  {
    var s := w + tail;
    assert s[0] == w[0];
    WordPrefixOfWord(w, tail);
    assert s[|w|..] == tail;
  }

  /** A leading space separates no token. */
  lemma TokensAfterSpace(s: string)
    ensures Tokens(" " + s) == Tokens(s)
  {
    assert (" " + s)[1..] == s;
  }

  /** Whitespace in front of a text separates no token. */
  lemma {:induction false} TokensAfterWhitespace(sep: string, s: string)
    requires Blank(sep)
    ensures Tokens(sep + s) == Tokens(s)
    decreases |sep|
  {
    if sep != [] {
      var t := sep + s;
      assert t[0] == sep[0] && t[1..] == sep[1..] + s;
      TokensAfterWhitespace(sep[1..], s);
    } else {
      assert sep + s == s;
    }
  }

  /** A word, a run of whitespace and the rest: the word is the first token. */
  lemma TokensOfWordSep(w: string, sep: string, s: string)
    requires IsWord(w) && sep != [] && Blank(sep)
    ensures Tokens(w + sep + s) == [w] + Tokens(s)
  {
    assert w + sep + s == w + (sep + s);
    TokensOfWordThen(w, sep + s);
    TokensAfterWhitespace(sep, s);
  }

  /** Whitespace after a text adds no token. */
  lemma {:induction false} TokensBeforeWhitespace(s: string, sep: string)
    requires Blank(sep)
    ensures Tokens(s + sep) == Tokens(s)
    decreases |s|
  {
    var t := s + sep;
    if s == [] {
      assert t == sep + [];
      TokensAfterWhitespace(sep, []);
    } else if IsWhitespace(s[0]) {
      assert t[0] == s[0] && t[1..] == s[1..] + sep;
      TokensBeforeWhitespace(s[1..], sep);
    } else {
      var w := WordPrefix(s);
      var rest := s[|w|..];
      assert w != [] by {
        assert !IsWhitespace(s[0]);
      }
      assert s == w + rest;
      assert t == w + (rest + sep);
      TokensOfWordThen(w, rest + sep);
      TokensOfWordThen(w, rest);
      TokensBeforeWhitespace(rest, sep);
    }
  }

  /** Trimming a text does not change its tokens. */
  lemma TokensOfTrim(s: string)
    ensures Tokens(Trim(s)) == Tokens(s)
  {
    var e := TrimEnd(s);
    var r := TrimStart(e);
    assert Trim(s) == r;
    TrimEndSplit(s);
    TokensBeforeWhitespace(e, s[|e|..]);
    TrimStartSplit(e);
    TokensAfterWhitespace(e[..|e| - |r|], r);
  }


  /** A word, a space and more words: the word is the first token. */
  lemma TokensOfJoinWordsStep(ws: seq<string>)
    requires |ws| > 1 && IsWord(ws[0])
    ensures Tokens(JoinWords(ws)) == [ws[0]] + Tokens(JoinWords(ws[1..]))
  {
    var rest := JoinWords(ws[1..]);
    var tail := " " + rest;
    assert JoinWords(ws) == ws[0] + tail;
    assert tail[0] == ' ';
    TokensOfWordThen(ws[0], tail);
    TokensAfterSpace(rest);
  }

  /** `Tokens` undoes `JoinWords` on words. */
  lemma {:induction false} TokensOfJoinWords(ws: seq<string>)
    requires forall i :: 0 <= i < |ws| ==> IsWord(ws[i])
    ensures Tokens(JoinWords(ws)) == ws
  {
    if ws == [] {
      assert Tokens([]) == [];
    } else if |ws| == 1 {
      assert JoinWords(ws) == ws[0] + [];
      TokensOfWordThen(ws[0], []);
      assert Tokens([]) == [];
      assert [ws[0]] == ws;
    } else {
      assert forall i :: 0 <= i < |ws| - 1 ==> ws[1..][i] == ws[i + 1];
      TokensOfJoinWords(ws[1..]);
      TokensOfJoinWordsStep(ws);
      HeadTail(ws);
    }
  }

  lemma HeadTail<T>(s: seq<T>)
    requires s != []
    ensures [s[0]] + s[1..] == s
  {
  }

  /** Words joined by spaces neither start nor end with whitespace. */
  lemma {:induction false} JoinWordsEnds(ws: seq<string>)
    requires forall i :: 0 <= i < |ws| ==> IsWord(ws[i])
    ensures var s := JoinWords(ws);
      s == [] || (!IsWhitespace(s[0]) && !IsWhitespace(s[|s| - 1]))
  {
    if |ws| > 1 {
      JoinWordsEnds(ws[1..]);
      var rest := JoinWords(ws[1..]);
      assert ws[1..][0] == ws[1];
      assert rest != [];
      var s := ws[0] + " " + rest;
      assert s[0] == ws[0][0];
      assert s[|s| - 1] == rest[|rest| - 1];
    } else if |ws| == 1 {
      assert ws[0][0] == JoinWords(ws)[0];
    }
  }

  /** Right-trimming a text that does not end in whitespace leaves it as it is. */
  lemma TrimEndUntrimmed(s: string)
    requires s == [] || !IsWhitespace(s[|s| - 1])
    ensures TrimEnd(s) == s
  {
  }

  /** Trimming a text with no whitespace at its ends leaves it as it is. */
  lemma TrimUntrimmed(s: string)
    requires s == [] || (!IsWhitespace(s[0]) && !IsWhitespace(s[|s| - 1]))
    ensures Trim(s) == s
  {
  }
}
