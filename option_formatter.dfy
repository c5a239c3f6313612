/**
 * com.enea.jcarder.util.OptionFormatter: lays out one option and its
 * description for the help text.  The option is indented, the description
 * starts in a fixed column (on the next line when the option reaches it),
 * and the description is wrapped greedily to the remaining width.  A
 * StringBuilder is modelled as the text it holds: each method returns the
 * builder's new contents.
 */
module OptionFormatters {
  import opened Wrappers
  import opened JavaLang

  /** n spaces; none for n <= 0. */
  function Spaces(n: int): (r: string)
    ensures |r| == if n <= 0 then 0 else n
    ensures forall i :: 0 <= i < |r| ==> r[i] == ' '
    decreases n
  {
    if n <= 0 then "" else Spaces(n - 1) + " "
  }

  /** addSpace: append n spaces. */
  method AddSpace(sb: string, n: int) returns (r: string)
    ensures r == sb + Spaces(n)
  {
    r := sb;
    var i := 0;
    while i < n
      invariant 0 <= i && (n >= 0 ==> i <= n) && (n < 0 ==> i == 0)
      invariant r == sb + Spaces(i)
    {
      r := r + " ";
      i := i + 1;
    }
  }

  lemma AddSpaceTest()
    ensures "" + Spaces(0) == "" && "" + Spaces(2) == "  "
  {
    assert Spaces(2) == Spaces(1) + " ";
  }

  // ---------------------------------------------------------------------
  // text.split("\\s+")
  // ---------------------------------------------------------------------

  /** The characters of the regular-expression class \s. */
  predicate IsSpace(c: char)
  {
    c == ' ' || c == '\t' || c == '\n' || c == '\U{000B}' || c == '\U{000C}' || c == '\r'
  }

  predicate HasSpace(s: string)
  {
    exists i :: 0 <= i < |s| && IsSpace(s[i])
  }

  /** Index of the first whitespace character. */
  function FirstSpace(s: string): (r: nat)
    requires HasSpace(s)
    ensures r < |s| && IsSpace(s[r])
    ensures forall i :: 0 <= i < r ==> !IsSpace(s[i])
  {
    if IsSpace(s[0]) then 0
    else
      assert HasSpace(s[1..]) by { var k :| 0 <= k < |s| && IsSpace(s[k]); assert s[1..][k - 1] == s[k]; }
      FirstSpace(s[1..]) + 1
  }

  /** Index just past the run of whitespace starting at i. */
  function RunEnd(s: string, i: nat): (r: nat)
    requires i <= |s|
    ensures i <= r <= |s|
    ensures i < |s| && IsSpace(s[i]) ==> r > i
    ensures forall k :: i <= k < r ==> IsSpace(s[k])
    ensures r == |s| || !IsSpace(s[r])
    decreases |s| - i
  {
    if i < |s| && IsSpace(s[i]) then RunEnd(s, i + 1) else i
  }

  /**
   * The pieces between maximal runs of whitespace, empty ones included:
   * an empty one before a leading run and one after a trailing run.
   */
  function Pieces(s: string): (r: seq<string>)
    ensures r != []
    ensures forall i :: 0 <= i < |r| ==> !HasSpace(r[i])
    ensures forall i :: 0 < i < |r| - 1 ==> r[i] != []
    ensures s != [] && !IsSpace(s[0]) ==> r[0] != []
    decreases |s|
  {
    if !HasSpace(s) then [s]
    else
      var i := FirstSpace(s);
      var j := RunEnd(s, i);
      assert !HasSpace(s[..i]) by {
        forall k | 0 <= k < i ensures !IsSpace(s[..i][k]) { assert s[..i][k] == s[k]; }
      }
      assert s != [] && !IsSpace(s[0]) ==> s[..i] != [] by {
        if s != [] && !IsSpace(s[0]) { assert i != 0; }
      }
      assert j < |s| ==> s[j..][0] == s[j];
      [s[..i]] + Pieces(s[j..])
  }

  /** String.split("\\s+"): the whole text when it has no whitespace, else the pieces without trailing empty ones. */
  function Words(text: string): (r: seq<string>)
    ensures forall i :: 0 <= i < |r| ==> !HasSpace(r[i])
    ensures forall i :: 0 < i < |r| ==> r[i] != []
  {
    if !HasSpace(text) then [text] else DropTrailingEmpty(Pieces(text))
  }

  /** Splitting at a single space. */
  lemma PiecesAtSpace(s: string, i: nat)
    requires i + 1 < |s| && s[i] == ' ' && !IsSpace(s[i + 1]) && !HasSpace(s[..i])
    ensures Pieces(s) == [s[..i]] + Pieces(s[i + 1..])
  {
    assert IsSpace(s[i]);
    var f := FirstSpace(s);
    assert f == i;
    assert RunEnd(s, i + 1) == i + 1;
  }

  /** A word of letters and dashes has no whitespace. */
  lemma Plain(s: string)
    requires forall k :: 0 <= k < |s| ==> 'a' <= s[k] <= 'z' || 'A' <= s[k] <= 'Z' || s[k] == '-'
    ensures !HasSpace(s)
  {
  }

  /** A word: not empty and free of whitespace. */
  predicate IsWord(w: string)
  {
    w != [] && !HasSpace(w)
  }

  lemma {:induction false} JoinFirst(words: seq<string>)
    requires words != [] && words[0] != []
    ensures Join(words, ' ') != [] && Join(words, ' ')[0] == words[0][0]
  {
  }

  /**
   * Words undoes joining with single spaces: words that are not empty and
   * hold no whitespace come back from split("\\s+") as they were.
   */
  lemma {:induction false} WordsOfJoin(words: seq<string>)
    requires words != [] && forall i :: 0 <= i < |words| ==> IsWord(words[i])
    ensures Pieces(Join(words, ' ')) == words
    ensures Words(Join(words, ' ')) == words
    decreases |words|
  {
    var s := Join(words, ' ');
    if |words| > 1 {
      var i := |words[0]|;
      var rest := Join(words[1..], ' ');
      assert s == words[0] + " " + rest;
      assert s[..i] == words[0] && s[i + 1..] == rest;
      JoinFirst(words[1..]);
      WordsOfJoin(words[1..]);
      PiecesAtSpace(s, i);
      assert words == [words[0]] + words[1..];
      assert HasSpace(s) by { assert IsSpace(s[i]); }
    }
  }

  /** The words of the formatter's own wrapping test are words. */
  lemma TestWords(ws: seq<string>)
    requires ws == ["foo", "gazonk", "x", "y"]
    ensures forall i :: 0 <= i < |ws| ==> IsWord(ws[i])
  {
    Plain(ws[0]);
    Plain(ws[1]);
    Plain(ws[2]);
    Plain(ws[3]);
  }

  /** The text of the formatter's own wrapping test is its words joined by spaces. */
  lemma TestTextJoin(text: string, ws: seq<string>)
    requires text == "foo gazonk x y"
    requires ws == ["foo", "gazonk", "x", "y"]
    ensures Join(ws, ' ') == text
  {
    assert ws[1..][1..][1..] == ["y"];
    assert Join(ws[1..][1..], ' ') == "x y";
    assert Join(ws[1..], ' ') == "gazonk x y";
  }

  /** The words of the formatter's own wrapping test. */
  lemma WordsOfTestText(text: string)
    requires text == "foo gazonk x y"
    ensures Words(text) == ["foo", "gazonk", "x", "y"]
  {
    var ws: seq<string> := ["foo", "gazonk", "x", "y"];
    TestWords(ws);
    TestTextJoin(text, ws);
    WordsOfJoin(ws);
  }

  // ---------------------------------------------------------------------
  // wrapText
  // ---------------------------------------------------------------------

  /**
   * The greedy packing of words into lines: a word goes on the current
   * line, after one space, unless the line is not empty and the word plus
   * the space would not fit within maxWidth; then it starts a new line.
   * lines are the finished lines, line the current one.
   */
  function Pack(words: seq<string>, maxWidth: int, lines: seq<string>, line: string): seq<string>
    decreases |words|
  {
    if words == [] then Finished(lines, line)
    else
      var word := words[0];
      if |line| > 0 && |word| + 1 > maxWidth - |line| then Pack(words[1..], maxWidth, lines + [line], word)
      else Pack(words[1..], maxWidth, lines, if |line| > 0 then line + " " + word else line + word)
  }

  /** A word that does not fit starts a new line. */
  lemma PackBreak(words: seq<string>, maxWidth: int, lines: seq<string>, line: string)
    requires words != [] && |line| > 0 && |words[0]| + 1 > maxWidth - |line|
    ensures Pack(words, maxWidth, lines, line) == Pack(words[1..], maxWidth, lines + [line], words[0])
  {
  }

  /** A word that fits goes on the current line after a space. */
  lemma PackAppend(words: seq<string>, maxWidth: int, lines: seq<string>, line: string)
    requires words != [] && |line| > 0 && |words[0]| + 1 <= maxWidth - |line|
    ensures Pack(words, maxWidth, lines, line) == Pack(words[1..], maxWidth, lines, line + " " + words[0])
  {
  }

  /** The first word starts the first line. */
  lemma PackStart(words: seq<string>, maxWidth: int)
    requires words != []
    ensures Pack(words, maxWidth, [], "") == Pack(words[1..], maxWidth, [], words[0])
  {
    assert "" + words[0] == words[0];
  }

  /** The lines, and the current line when it is not empty. */
  function Finished(lines: seq<string>, line: string): seq<string>
  {
    if |line| > 0 then lines + [line] else lines
  }

  /** wrapText: the description's words packed greedily into lines of at most maxWidth. */
  method WrapText(text: string, maxWidth: int) returns (result: seq<string>)
    ensures result == Pack(Words(text), maxWidth, [], "")
  {
    var words := Words(text);
    result := [];
    var sb := "";
    var k := 0;
    while k < |words|
      invariant 0 <= k <= |words|
      invariant Pack(words[k..], maxWidth, result, sb) == Pack(words, maxWidth, [], "")
    {
      var word := words[k];
      assert words[k..][0] == word && words[k..][1..] == words[k + 1..];
      if |sb| > 0 && |word| + 1 > maxWidth - |sb| {
        result := result + [sb];
        sb := word;
      } else {
        if |sb| > 0 {
          sb := sb + " ";
        }
        sb := sb + word;
      }
      k := k + 1;
    }
    if |sb| > 0 {
      result := result + [sb];
    }
  }

  /** Lines joined with single spaces. */
  function JoinLines(lines: seq<string>): string
  {
    Join(lines, ' ')
  }

  /** Joining two neighbouring words with a space before joining the whole is the same join. */
  lemma {:induction false} JoinMerge(prefix: seq<string>, a: string, b: string, rest: seq<string>)
    ensures JoinLines(prefix + [a + " " + b] + rest) == JoinLines(prefix + [a, b] + rest)
    decreases |prefix|
  {
    if prefix == [] {
      assert prefix + [a + " " + b] + rest == [a + " " + b] + rest;
      assert prefix + [a, b] + rest == [a, b] + rest;
      assert ([a, b] + rest)[1..] == [b] + rest;
      if rest != [] {
        assert ([a + " " + b] + rest)[1..] == rest;
        assert ([b] + rest)[1..] == rest;
        assert JoinLines([a + " " + b] + rest) == (a + " " + b) + " " + JoinLines(rest);
        assert JoinLines([b] + rest) == b + " " + JoinLines(rest);
        assert JoinLines([a, b] + rest) == a + " " + JoinLines([b] + rest);
        assert (a + " " + b) + " " + JoinLines(rest) == a + " " + (b + " " + JoinLines(rest));
      } else {
        assert [a + " " + b] + rest == [a + " " + b];
        assert [a, b] + rest == [a, b] && [a, b][1..] == [b];
        assert Join([a, b][1..], ' ') == b;
        assert JoinLines([a, b]) == Join([a, b], ' ') == a + [' '] + b;
      }
    } else {
      JoinMerge(prefix[1..], a, b, rest);
      assert (prefix + [a + " " + b] + rest)[1..] == prefix[1..] + [a + " " + b] + rest;
      assert (prefix + [a, b] + rest)[1..] == prefix[1..] + [a, b] + rest;
    }
  }

  /** The words that are not empty. */
  function Filled(words: seq<string>): seq<string>
  {
    if words == [] then [] else (if words[0] == [] then [] else [words[0]]) + Filled(words[1..])
  }

  /**
   * Packing loses no word and adds none: the lines joined with single
   * spaces are the words joined with single spaces.
   */
  lemma {:induction false} PackKeepsWords(words: seq<string>, maxWidth: int, lines: seq<string>, line: string)
    requires forall i :: 0 <= i < |words| ==> words[i] != []
    requires |line| == 0 ==> lines == []
    ensures JoinLines(Pack(words, maxWidth, lines, line)) == JoinLines(Finished(lines, line) + words)
    decreases |words|
  {
    if words == [] {
      assert Finished(lines, line) + words == Finished(lines, line);
    } else {
      var word := words[0];
      if |line| > 0 && |word| + 1 > maxWidth - |line| {
        PackKeepsWords(words[1..], maxWidth, lines + [line], word);
        KeepsWordsOnBreak(words, maxWidth, lines, line);
      } else if |line| > 0 {
        PackKeepsWords(words[1..], maxWidth, lines, line + " " + word);
        KeepsWordsOnAppend(words, maxWidth, lines, line);
      } else {
        assert line + word == word;
        PackKeepsWords(words[1..], maxWidth, lines, word);
        KeepsWordsOnStart(words, maxWidth, lines, line);
      }
    }
  }

  /** The step of PackKeepsWords where a word starts a new line. */
  lemma KeepsWordsOnBreak(words: seq<string>, maxWidth: int, lines: seq<string>, line: string)
    requires words != [] && words[0] != [] && |line| > 0 && |words[0]| + 1 > maxWidth - |line|
    requires JoinLines(Pack(words[1..], maxWidth, lines + [line], words[0]))
      == JoinLines(Finished(lines + [line], words[0]) + words[1..])
    ensures JoinLines(Pack(words, maxWidth, lines, line)) == JoinLines(Finished(lines, line) + words)
  {
    PackBreak(words, maxWidth, lines, line);
    assert Finished(lines + [line], words[0]) + words[1..] == Finished(lines, line) + words;
  }

  /** The step of PackKeepsWords where a word joins the current line. */
  lemma KeepsWordsOnAppend(words: seq<string>, maxWidth: int, lines: seq<string>, line: string)
    requires words != [] && words[0] != [] && |line| > 0 && |words[0]| + 1 <= maxWidth - |line|
    requires JoinLines(Pack(words[1..], maxWidth, lines, line + " " + words[0]))
      == JoinLines(Finished(lines, line + " " + words[0]) + words[1..])
    ensures JoinLines(Pack(words, maxWidth, lines, line)) == JoinLines(Finished(lines, line) + words)
  {
    var word := words[0];
    PackAppend(words, maxWidth, lines, line);
    JoinMerge(lines, line, word, words[1..]);
    assert Finished(lines, line + " " + word) + words[1..] == lines + [line + " " + word] + words[1..];
    assert Finished(lines, line) + words == lines + [line, word] + words[1..];
  }

  /** The step of PackKeepsWords where the first word starts the first line. */
  lemma KeepsWordsOnStart(words: seq<string>, maxWidth: int, lines: seq<string>, line: string)
    requires words != [] && words[0] != [] && |line| == 0 && lines == []
    requires JoinLines(Pack(words[1..], maxWidth, lines, words[0])) == JoinLines(Finished(lines, words[0]) + words[1..])
    ensures JoinLines(Pack(words, maxWidth, lines, line)) == JoinLines(Finished(lines, line) + words)
  {
    assert line == "";
    PackStart(words, maxWidth);
    assert Finished(lines, words[0]) + words[1..] == words;
    assert Finished(lines, line) + words == words;
  }

  /** No line is empty. */
  lemma {:induction false} PackNoEmptyLines(words: seq<string>, maxWidth: int, lines: seq<string>, line: string)
    requires forall i :: 0 <= i < |lines| ==> lines[i] != []
    ensures forall i :: 0 <= i < |Pack(words, maxWidth, lines, line)| ==> Pack(words, maxWidth, lines, line)[i] != []
    decreases |words|
  {
    if words != [] {
      var word := words[0];
      if |line| > 0 && |word| + 1 > maxWidth - |line| {
        PackNoEmptyLines(words[1..], maxWidth, lines + [line], word);
      } else {
        PackNoEmptyLines(words[1..], maxWidth, lines, if |line| > 0 then line + " " + word else line + word);
      }
    }
  }

  /** A line that holds more than one word, so contains a space, fits within maxWidth. */
  predicate Fits(line: string, maxWidth: int)
  {
    ' ' in line ==> |line| <= maxWidth
  }

  /** Only a line made of one over-long word exceeds maxWidth. */
  lemma {:induction false} PackFits(words: seq<string>, maxWidth: int, lines: seq<string>, line: string)
    requires forall i :: 0 <= i < |words| ==> ' ' !in words[i]
    requires forall i :: 0 <= i < |lines| ==> Fits(lines[i], maxWidth)
    requires Fits(line, maxWidth)
    ensures forall i :: 0 <= i < |Pack(words, maxWidth, lines, line)| ==> Fits(Pack(words, maxWidth, lines, line)[i], maxWidth)
    decreases |words|
  {
    if words != [] {
      var word := words[0];
      if |line| > 0 && |word| + 1 > maxWidth - |line| {
        PackFits(words[1..], maxWidth, lines + [line], word);
      } else if |line| > 0 {
        PackFits(words[1..], maxWidth, lines, line + " " + word);
      } else {
        assert line + word == word;
        PackFits(words[1..], maxWidth, lines, line + word);
      }
    }
  }

  /** The first word of a line. */
  function FirstWord(line: string): string
  {
    if ' ' in line then line[..IndexOf(line, ' ')] else line
  }

  /**
   * The packing is greedy: no line could have taken the first word of the
   * next line as well.
   */
  predicate Greedy(lines: seq<string>, maxWidth: int)
  {
    forall i, j :: 0 <= i < |lines| && j == i + 1 && j < |lines| ==> |lines[i]| + 1 + |FirstWord(lines[j])| > maxWidth
  }

  lemma FirstWordExtends(line: string, word: string)
    requires line != [] && ' ' !in word
    ensures FirstWord(line + " " + word) == FirstWord(line)
  {
    var s := line + " " + word;
    var i := if ' ' in line then IndexOf(line, ' ') else |line|;
    assert s[..i] == line[..i];
    assert s[i] == ' ';
    assert IndexOf(s, ' ') == i;
  }

  lemma {:induction false} PackGreedy(words: seq<string>, maxWidth: int, lines: seq<string>, line: string)
    requires forall i :: 0 <= i < |words| ==> words[i] != [] && ' ' !in words[i]
    requires Greedy(lines, maxWidth)
    requires lines != [] ==> |line| > 0 && |lines[|lines| - 1]| + 1 + |FirstWord(line)| > maxWidth
    ensures Greedy(Pack(words, maxWidth, lines, line), maxWidth)
    decreases |words|
  {
    if words == [] {
      var r := Finished(lines, line);
      assert forall i :: 0 <= i < |r| ==> r[i] == if i < |lines| then lines[i] else line;
    } else {
      var word := words[0];
      if |line| > 0 && |word| + 1 > maxWidth - |line| {
        var lines' := lines + [line];
        assert FirstWord(word) == word;
        assert forall i :: 0 <= i < |lines'| ==> lines'[i] == if i < |lines| then lines[i] else line;
        PackGreedy(words[1..], maxWidth, lines', word);
      } else if |line| > 0 {
        FirstWordExtends(line, word);
        PackGreedy(words[1..], maxWidth, lines, line + " " + word);
      } else {
        PackGreedy(words[1..], maxWidth, lines, line + word);
      }
    }
  }

  /**
   * What wrapText promises: no empty line, the description's words in
   * order, every line of more than one word within maxWidth, and every
   * line as full as the next line's first word allows.
   */
  lemma WrapTextProperties(text: string, maxWidth: int)
    ensures var lines := Pack(Words(text), maxWidth, [], "");
      (forall i :: 0 <= i < |lines| ==> lines[i] != [] && Fits(lines[i], maxWidth))
      && JoinLines(lines) == JoinLines(Filled(Words(text)))
      && Greedy(lines, maxWidth)
  {
    var words := Words(text);
    var filled := Filled(words);
    FilledWords(words);
    PackFilled(words, maxWidth);
    PackNoEmptyLines(filled, maxWidth, [], "");
    PackFits(filled, maxWidth, [], "");
    PackGreedy(filled, maxWidth, [], "");
    PackKeepsWords(filled, maxWidth, [], "");
    assert Finished([], "") + filled == filled;
  }

  lemma {:induction false} FilledWords(words: seq<string>)
    requires forall i :: 0 <= i < |words| ==> !HasSpace(words[i])
    ensures forall i :: 0 <= i < |Filled(words)| ==> Filled(words)[i] != [] && ' ' !in Filled(words)[i]
    decreases |words|
  {
    if words != [] {
      FilledWords(words[1..]);
      NoBlank(words[0]);
    }
  }

  lemma NoBlank(w: string)
    requires !HasSpace(w)
    ensures ' ' !in w
  {
    assert forall k :: 0 <= k < |w| ==> !IsSpace(w[k]);
  }

  /** An empty word, which can only come first, leaves the packing as it is. */
  lemma PackFilled(words: seq<string>, maxWidth: int)
    requires forall i :: 0 < i < |words| ==> words[i] != []
    ensures Pack(words, maxWidth, [], "") == Pack(Filled(words), maxWidth, [], "")
  {
    if words != [] {
      FilledAll(words[1..]);
      if words[0] == [] {
        assert "" + words[0] == "";
        assert Filled(words) == words[1..];
      } else {
        assert Filled(words) == [words[0]] + words[1..] == words;
      }
    }
  }

  lemma {:induction false} FilledAll(words: seq<string>)
    requires forall i :: 0 <= i < |words| ==> words[i] != []
    ensures Filled(words) == words
    decreases |words|
  {
    if words != [] {
      FilledAll(words[1..]);
    }
  }

  // The rows of the width table below, one lemma per run of widths.

  lemma WrapUpTo2(ws: seq<string>, w: int)
    requires ws == ["foo", "gazonk", "x", "y"] && w < 3
    ensures Pack(ws, w, [], "") == ["foo", "gazonk", "x", "y"]
  {
    var w1 := ws[1..];
    var w2 := w1[1..];
    var w3 := w2[1..];
    assert w1 == ["gazonk", "x", "y"] && w2 == ["x", "y"] && w3 == ["y"] && w3[1..] == [];
    PackStart(ws, w);
    PackBreak(w1, w, [], "foo");
    assert [] + ["foo"] == ["foo"];
    PackBreak(w2, w, ["foo"], "gazonk");
    assert ["foo"] + ["gazonk"] == ["foo", "gazonk"];
    PackBreak(w3, w, ["foo", "gazonk"], "x");
    assert ["foo", "gazonk"] + ["x"] == ["foo", "gazonk", "x"];
    assert Finished(["foo", "gazonk", "x"], "y") == ["foo", "gazonk", "x", "y"];
  }

  lemma WrapUpTo7(ws: seq<string>, w: int)
    requires ws == ["foo", "gazonk", "x", "y"] && 3 <= w < 8
    ensures Pack(ws, w, [], "") == ["foo", "gazonk", "x y"]
  {
    var w1 := ws[1..];
    var w2 := w1[1..];
    var w3 := w2[1..];
    assert w1 == ["gazonk", "x", "y"] && w2 == ["x", "y"] && w3 == ["y"] && w3[1..] == [];
    PackStart(ws, w);
    PackBreak(w1, w, [], "foo");
    assert [] + ["foo"] == ["foo"];
    PackBreak(w2, w, ["foo"], "gazonk");
    assert ["foo"] + ["gazonk"] == ["foo", "gazonk"];
    PackAppend(w3, w, ["foo", "gazonk"], "x");
    assert "x" + " " + "y" == "x y";
    assert Finished(["foo", "gazonk"], "x y") == ["foo", "gazonk", "x y"];
  }

  lemma WrapUpTo9(ws: seq<string>, w: int)
    requires ws == ["foo", "gazonk", "x", "y"] && 8 <= w < 10
    ensures Pack(ws, w, [], "") == ["foo", "gazonk x", "y"]
  {
    var w1 := ws[1..];
    var w2 := w1[1..];
    var w3 := w2[1..];
    assert w1 == ["gazonk", "x", "y"] && w2 == ["x", "y"] && w3 == ["y"] && w3[1..] == [];
    PackStart(ws, w);
    PackBreak(w1, w, [], "foo");
    assert [] + ["foo"] == ["foo"];
    PackAppend(w2, w, ["foo"], "gazonk");
    assert "gazonk" + " " + "x" == "gazonk x";
    PackBreak(w3, w, ["foo"], "gazonk x");
    assert ["foo"] + ["gazonk x"] == ["foo", "gazonk x"];
    assert Finished(["foo", "gazonk x"], "y") == ["foo", "gazonk x", "y"];
  }

  lemma WrapUpTo11(ws: seq<string>, w: int)
    requires ws == ["foo", "gazonk", "x", "y"] && 10 <= w < 12
    ensures Pack(ws, w, [], "") == ["foo gazonk", "x y"]
  {
    var w1 := ws[1..];
    var w2 := w1[1..];
    var w3 := w2[1..];
    assert w1 == ["gazonk", "x", "y"] && w2 == ["x", "y"] && w3 == ["y"] && w3[1..] == [];
    PackStart(ws, w);
    PackAppend(w1, w, [], "foo");
    assert "foo" + " " + "gazonk" == "foo gazonk";
    PackBreak(w2, w, [], "foo gazonk");
    assert [] + ["foo gazonk"] == ["foo gazonk"];
    PackAppend(w3, w, ["foo gazonk"], "x");
    assert "x" + " " + "y" == "x y";
    assert Finished(["foo gazonk"], "x y") == ["foo gazonk", "x y"];
  }

  lemma WrapUpTo13(ws: seq<string>, w: int)
    requires ws == ["foo", "gazonk", "x", "y"] && 12 <= w < 14
    ensures Pack(ws, w, [], "") == ["foo gazonk x", "y"]
  {
    var w1 := ws[1..];
    var w2 := w1[1..];
    var w3 := w2[1..];
    assert w1 == ["gazonk", "x", "y"] && w2 == ["x", "y"] && w3 == ["y"] && w3[1..] == [];
    PackStart(ws, w);
    PackAppend(w1, w, [], "foo");
    assert "foo" + " " + "gazonk" == "foo gazonk";
    PackAppend(w2, w, [], "foo gazonk");
    assert "foo gazonk" + " " + "x" == "foo gazonk x";
    PackBreak(w3, w, [], "foo gazonk x");
    assert [] + ["foo gazonk x"] == ["foo gazonk x"];
    assert Finished(["foo gazonk x"], "y") == ["foo gazonk x", "y"];
  }

  lemma WrapFrom14(ws: seq<string>, w: int)
    requires ws == ["foo", "gazonk", "x", "y"] && 14 <= w
    ensures Pack(ws, w, [], "") == ["foo gazonk x y"]
  {
    var w1 := ws[1..];
    var w2 := w1[1..];
    var w3 := w2[1..];
    assert w1 == ["gazonk", "x", "y"] && w2 == ["x", "y"] && w3 == ["y"] && w3[1..] == [];
    PackStart(ws, w);
    PackAppend(w1, w, [], "foo");
    assert "foo" + " " + "gazonk" == "foo gazonk";
    PackAppend(w2, w, [], "foo gazonk");
    assert "foo gazonk" + " " + "x" == "foo gazonk x";
    PackAppend(w3, w, [], "foo gazonk x");
    assert "foo gazonk x" + " " + "y" == "foo gazonk x y";
  }

  /** The width table of the formatter's own test, for "foo gazonk x y" and widths 1 to 15. */
  lemma WrapTable(text: string, w: int)
    requires text == "foo gazonk x y" && 1 <= w <= 15
    ensures Pack(Words(text), w, [], "") ==
      if w < 3 then ["foo", "gazonk", "x", "y"]
      else if w < 8 then ["foo", "gazonk", "x y"]
      else if w < 10 then ["foo", "gazonk x", "y"]
      else if w < 12 then ["foo gazonk", "x y"]
      else if w < 14 then ["foo gazonk x", "y"]
      else ["foo gazonk x y"]
  {
    WordsOfTestText(text);
    var ws := Words(text);
    if w < 3 {
      WrapUpTo2(ws, w);
    } else if w < 8 {
      WrapUpTo7(ws, w);
    } else if w < 10 {
      WrapUpTo9(ws, w);
    } else if w < 12 {
      WrapUpTo11(ws, w);
    } else if w < 14 {
      WrapUpTo13(ws, w);
    } else {
      WrapFrom14(ws, w);
    }
  }

  // ---------------------------------------------------------------------
  // indentText and format
  // ---------------------------------------------------------------------

  /** Every line after the first behind indent spaces, every line ended by a newline. */
  function IndentedLines(lines: seq<string>, indent: int, first: bool): string
  {
    if lines == [] then ""
    else (if first then "" else Spaces(indent)) + lines[0] + "\n" + IndentedLines(lines[1..], indent, false)
  }

  /** indentText: firstIndent spaces, then the lines, each later one behind indent spaces. */
  method IndentText(sb: string, lines: seq<string>, indent: int, firstIndent: int) returns (r: string)
    ensures r == sb + Spaces(firstIndent) + IndentedLines(lines, indent, true)
  {
    var first := true;
    r := AddSpace(sb, firstIndent);
    var k := 0;
    while k < |lines|
      invariant 0 <= k <= |lines|
      invariant first <==> k == 0
      invariant r + IndentedLines(lines[k..], indent, first) == sb + Spaces(firstIndent) + IndentedLines(lines, indent, true)
    {
      assert lines[k..][0] == lines[k] && lines[k..][1..] == lines[k + 1..];
      if first {
        first := false;
      } else {
        r := AddSpace(r, indent);
      }
      r := r + lines[k];
      r := r + "\n";
      k := k + 1;
    }
  }

  lemma IndentTextTest(lines: seq<string>)
    requires lines == ["foo", " bar", "gazonk"]
    ensures "" + Spaces(1) + IndentedLines(lines, 4, true) == " foo\n     bar\n    gazonk\n"
  {
    var four := Spaces(4);
    assert four == "    " by {
      assert Spaces(1) == " ";
      assert Spaces(2) == "  ";
      assert Spaces(3) == "   ";
    }
    var l1, l2 := lines[1..], lines[1..][1..];
    assert l1 == [" bar", "gazonk"] && l2 == ["gazonk"] && l2[1..] == [];
    var last := IndentedLines(l2, 4, false);
    assert IndentedLines(l2[1..], 4, false) == "";
    assert last == four + "gazonk" + "\n" + "";
    var middle := IndentedLines(l1, 4, false);
    assert middle == four + " bar" + "\n" + last;
    assert IndentedLines(lines, 4, true) == "foo" + "\n" + middle;
    IndentTextResult(Spaces(1), four, middle, last);
  }

  lemma IndentTextResult(one: string, four: string, middle: string, last: string)
    requires one == " " && four == "    " && last == four + "gazonk" + "\n" && middle == four + " bar" + "\n" + last
    ensures "" + one + ("foo" + "\n" + middle) == " foo\n     bar\n    gazonk\n"
  {
  }

  /** Whether the option reaches the description column, so that the description starts on the next line. */
  predicate Wraps(optionIndent: int, descrIndent: int, option: string)
  {
    optionIndent + |option| >= descrIndent
  }

  /** The spaces before the description's first line. */
  function FirstIndent(optionIndent: int, descrIndent: int, option: string): int
  {
    if Wraps(optionIndent, descrIndent, option) then descrIndent else descrIndent - (optionIndent + |option|)
  }

  /** The option behind its indent, and a newline when it reaches the description column. */
  function OptionPart(optionIndent: int, descrIndent: int, option: string): string
  {
    Spaces(optionIndent) + option + (if Wraps(optionIndent, descrIndent, option) then "\n" else "")
  }

  /** The wrapped description with its later lines indented, or just a newline for a null description. */
  function DescriptionPart(descrIndent: int, maxWidth: int, firstIndent: int, descr: Option<string>): string
  {
    match descr
    case None => "\n"
    case Some(d) => Spaces(firstIndent) + IndentedLines(Pack(Words(d), maxWidth - descrIndent, [], ""), descrIndent, true)
  }

  /**
   * What format appends: the indented option; a newline and the full
   * description indent when the option reaches the description column,
   * and the padding up to that column otherwise; then the wrapped
   * description with its later lines indented, or just a newline for a
   * null description.
   */
  function Formatted(optionIndent: int, descrIndent: int, maxWidth: int, option: string, descr: Option<string>): string
  {
    OptionPart(optionIndent, descrIndent, option)
    + DescriptionPart(descrIndent, maxWidth, FirstIndent(optionIndent, descrIndent, option), descr)
  }

  class OptionFormatter {
    const optionIndent: int
    const descrIndent: int
    const maxWidth: int

    constructor (optionIndent: int, descrIndent: int, maxWidth: int)
      ensures this.optionIndent == optionIndent && this.descrIndent == descrIndent && this.maxWidth == maxWidth
    {
      this.optionIndent := optionIndent;
      this.descrIndent := descrIndent;
      this.maxWidth := maxWidth;
    }

    /** format: appends the option and its wrapped description to sb. */
    method Format(sb: string, option: string, descr: Option<string>) returns (r: string)
      ensures r == sb + Formatted(optionIndent, descrIndent, maxWidth, option, descr)
    {
      var firstIndent;
      r, firstIndent := FormatOption(sb, option);
      r := FormatDescription(r, firstIndent, descr);
      var op, dp := OptionPart(optionIndent, descrIndent, option), DescriptionPart(descrIndent, maxWidth, firstIndent, descr);
      assert (sb + op) + dp == sb + (op + dp);
    }

    /** The first half of format: the option, and where the description starts. */
    method FormatOption(sb: string, option: string) returns (r: string, firstIndent: int)
      ensures r == sb + OptionPart(optionIndent, descrIndent, option)
      ensures firstIndent == FirstIndent(optionIndent, descrIndent, option)
    {
      r := AddSpace(sb, optionIndent);
      r := r + option;
      if optionIndent + |option| >= descrIndent {
        r := r + "\n";
        firstIndent := descrIndent;
      } else {
        firstIndent := descrIndent - (optionIndent + |option|);
      }
    }

    /** The second half of format: the description, wrapped and indented. */
    method FormatDescription(sb: string, firstIndent: int, descr: Option<string>) returns (r: string)
      ensures r == sb + DescriptionPart(descrIndent, maxWidth, firstIndent, descr)
    {
      if descr.None? {
        r := sb + "\n";
      } else {
        var descrLines := WrapText(descr.value, maxWidth - descrIndent);
        r := IndentText(sb, descrLines, descrIndent, firstIndent);
      }
    }
  }

  /** Two words joined by a space split back into the two. */
  lemma WordsOfTwo(text: string, a: string, b: string)
    requires IsWord(a) && IsWord(b) && text == a + " " + b
    ensures Words(text) == [a, b]
  {
    var ws := [a, b];
    assert ws[1..] == [b];
    WordsOfJoin(ws);
  }

  /** Three words joined by spaces split back into the three. */
  lemma WordsOfThree(text: string, a: string, b: string, c: string)
    requires IsWord(a) && IsWord(b) && IsWord(c) && text == a + " " + b + " " + c
    ensures Words(text) == [a, b, c]
  {
    var ws := [a, b, c];
    assert ws[1..] == [b, c] && ws[1..][1..] == [c];
    assert Join(ws[1..], ' ') == b + " " + c;
    assert Join(ws, ' ') == a + " " + (b + " " + c);
    assert a + " " + (b + " " + c) == a + " " + b + " " + c;
    WordsOfJoin(ws);
  }

  /** The description of the formatter's unwrapped test fills one line of width 9. */
  lemma UnwrappedDescription(descr: string)
    requires descr == "foo bar"
    ensures Pack(Words(descr), 9, [], "") == ["foo bar"]
  {
    Plain("foo");
    Plain("bar");
    WordsOfTwo(descr, "foo", "bar");
    PackFooBar(Words(descr));
  }

  lemma PackFooBar(ws: seq<string>)
    requires ws == ["foo", "bar"]
    ensures Pack(ws, 9, [], "") == ["foo bar"]
  {
    var w1 := ws[1..];
    assert w1 == ["bar"] && w1[1..] == [];
    PackStart(ws, 9);
    PackAppend(w1, 9, [], "foo");
    assert "foo" + " " + "bar" == "foo bar";
  }

  /** The description of the formatter's wrapped test needs two lines of width 9. */
  lemma WrappedDescription(descr: string)
    requires descr == "foo bar gazonk"
    ensures Pack(Words(descr), 9, [], "") == ["foo bar", "gazonk"]
  {
    Plain("foo");
    Plain("bar");
    Plain("gazonk");
    WordsOfThree(descr, "foo", "bar", "gazonk");
    PackFooBarGazonk(Words(descr));
  }

  lemma PackFooBarGazonk(ws: seq<string>)
    requires ws == ["foo", "bar", "gazonk"]
    ensures Pack(ws, 9, [], "") == ["foo bar", "gazonk"]
  {
    var w1 := ws[1..];
    var w2 := w1[1..];
    assert w1 == ["bar", "gazonk"] && w2 == ["gazonk"] && w2[1..] == [];
    PackStart(ws, 9);
    PackAppend(w1, 9, [], "foo");
    assert "foo" + " " + "bar" == "foo bar";
    PackBreak(w2, 9, [], "foo bar");
    assert [] + ["foo bar"] == ["foo bar"];
  }

  /** An option short of the description column is padded up to it, and the description follows on the same line. */
  lemma FormattedUnwrapped(optionIndent: int, descrIndent: int, maxWidth: int, option: string, descr: string)
    requires optionIndent + |option| < descrIndent
    ensures Formatted(optionIndent, descrIndent, maxWidth, option, Some(descr)) ==
      Spaces(optionIndent) + option + Spaces(descrIndent - (optionIndent + |option|))
      + IndentedLines(Pack(Words(descr), maxWidth - descrIndent, [], ""), descrIndent, true)
  {
  }

  /** An option short of the description column with a null description is followed by just a newline. */
  lemma FormattedNoDescription(optionIndent: int, descrIndent: int, maxWidth: int, option: string)
    requires optionIndent + |option| < descrIndent
    ensures Formatted(optionIndent, descrIndent, maxWidth, option, None) == Spaces(optionIndent) + option + "\n"
  {
    assert Spaces(optionIndent) + option + "" == Spaces(optionIndent) + option;
  }

  /** Two words that fit side by side make one line. */
  lemma PackTwoFit(ws: seq<string>, maxWidth: int)
    requires |ws| == 2 && ws[0] != [] && |ws[0]| + 1 + |ws[1]| <= maxWidth
    ensures Pack(ws, maxWidth, [], "") == [ws[0] + " " + ws[1]]
  {
    PackStart(ws, maxWidth);
    PackAppend(ws[1..], maxWidth, [], ws[0]);
    assert ws[1..][1..] == [];
  }

  /** Three words that fit side by side make one line. */
  lemma PackThreeFit(ws: seq<string>, maxWidth: int)
    requires |ws| == 3 && ws[0] != [] && |ws[0]| + 1 + |ws[1]| + 1 + |ws[2]| <= maxWidth
    ensures Pack(ws, maxWidth, [], "") == [ws[0] + " " + ws[1] + " " + ws[2]]
  {
    PackStart(ws, maxWidth);
    PackAppend(ws[1..], maxWidth, [], ws[0]);
    PackAppend(ws[1..][1..], maxWidth, [], ws[0] + " " + ws[1]);
    assert ws[1..][1..][1..] == [];
  }

  /** One line is written behind the first indent and ended by a newline. */
  lemma IndentedOne(line: string, indent: int)
    ensures IndentedLines([line], indent, true) == line + "\n"
  {
    assert [line][1..] == [];
    assert "" + line + "\n" + "" == line + "\n";
  }

  lemma TwoSpaces()
    ensures Spaces(2) == "  "
  {
    assert Spaces(1) == " ";
  }

  lemma SixSpaces()
    ensures Spaces(6) == "      "
  {
    assert Spaces(3) == "   " by { assert Spaces(1) == " "; assert Spaces(2) == "  "; }
    assert Spaces(5) == "     " by { assert Spaces(4) == "    "; }
  }

  lemma UnwrappedBody(lines: seq<string>)
    requires lines == ["foo bar"]
    ensures IndentedLines(lines, 6, true) == "foo bar\n"
  {
    assert lines[1..] == [];
  }

  lemma WrappedBody(lines: seq<string>)
    requires lines == ["foo bar", "gazonk"]
    ensures IndentedLines(lines, 6, true) == "foo bar\n      gazonk\n"
  {
    SixSpaces();
    assert lines[1..] == ["gazonk"] && lines[1..][1..] == [];
    assert IndentedLines(lines[1..], 6, false) == Spaces(6) + "gazonk" + "\n";
  }

  lemma UnwrappedText(sp: string, option: string, body: string)
    requires sp == "  " && option == "-x" && body == "foo bar\n"
    ensures sp + option + sp + body == "  -x  foo bar\n"
  {
  }

  lemma WrappedText(sp: string, option: string, body: string)
    requires sp == "  " && option == "-x" && body == "foo bar\n      gazonk\n"
    ensures sp + option + sp + body == "  -x  foo bar\n      gazonk\n"
  {
  }

  /** A description that fits goes on the option's own line, padded to the description column. */
  lemma FormatUnwrappedLine(option: string, descr: string)
    requires option == "-x" && descr == "foo bar"
    ensures Formatted(2, 6, 15, option, Some(descr)) == "  -x  foo bar\n"
  {
    FormattedUnwrapped(2, 6, 15, option, descr);
    UnwrappedDescription(descr);
    UnwrappedBody(Pack(Words(descr), 9, [], ""));
    TwoSpaces();
    UnwrappedText(Spaces(2), option, IndentedLines(Pack(Words(descr), 9, [], ""), 6, true));
  }

  /** A word that does not fit goes on a new line at the description column. */
  lemma FormatWrappedLine(option: string, descr: string)
    requires option == "-x" && descr == "foo bar gazonk"
    ensures Formatted(2, 6, 15, option, Some(descr)) == "  -x  foo bar\n      gazonk\n"
  {
    FormattedUnwrapped(2, 6, 15, option, descr);
    WrappedDescription(descr);
    WrappedBody(Pack(Words(descr), 9, [], ""));
    TwoSpaces();
    WrappedText(Spaces(2), option, IndentedLines(Pack(Words(descr), 9, [], ""), 6, true));
  }
}
