/**
 * script/update-blurb.py: puts the licence blurb at the top of every Java
 * source file under src and test, replacing the comment lines a file
 * starts with.
 *
 * A file is the list of its lines, each with its newline; the file system
 * is a map from path to file, and os.walk the files it lists under a
 * directory.
 */
module UpdateBlurb {
  const JAVA_DIRECTORIES := ["src", "test"]

  /** The blurb, line by line: an opening line, the starred lines of LICENCE_TEXT, a closing line and an empty line. */
  const BLURB: seq<string> := ["/*\n"] + Starred(LICENCE_TEXT) + [" */\n", "\n"]

  /** The text of the blurb's starred lines, after their " *". */
  const LICENCE_TEXT: seq<string> := [
    " JCarder -- cards Java programs to keep threads disentangled",
    "",
    " Copyright (C) 2006-2007 Enea AB",
    " Copyright (C) 2007 Ulrik Svensson",
    " Copyright (C) 2007 Joel Rosdahl",
    "",
    " This program is made available under the GNU GPL version 2. See the",
    " accompanying file LICENSE.txt for details.",
    "",
    " This program is distributed in the hope that it will be useful, but WITHOUT",
    " ANY WARRANTY; without even the implied warranty of MERCHANTABILITY or",
    " FITNESS FOR A PARTICULAR PURPOSE."
  ]

  /** Each text as a comment line: " *", the text and a newline. */
  function Starred(text: seq<string>): (r: seq<string>)
    ensures |r| == |text|
    ensures forall k :: 0 <= k < |text| ==> r[k] == " *" + text[k] + "\n"
  {
    seq(|text|, k requires 0 <= k < |text| => " *" + text[k] + "\n")
  }

  /** Python 2's \s on a byte string: space, \t, \n, \r, \f and \v. */
  predicate IsSpace(c: char)
  {
    c == ' ' || c == '\t' || c == '\n' || c == '\r' || c == '\U{000C}' || c == '\U{000B}'
  }

  /** The end of the run of whitespace that starts at i. */
  function SpaceEnd(line: string, i: nat): (r: nat)
    requires i <= |line|
    ensures i <= r <= |line|
    ensures forall k :: i <= k < r ==> IsSpace(line[k])
    ensures r < |line| ==> !IsSpace(line[r])
    decreases |line| - i
  {
    if i < |line| && IsSpace(line[i]) then SpaceEnd(line, i + 1) else i
  }

  /**
   * re.match(r"\s*(/|\*|$)", line): after the leading whitespace the line
   * ends or goes on with '/' or '*'.  Since '/' and '*' are not
   * whitespace, and '$' can only follow whitespace that runs to the end
   * (or to a final '\n', itself whitespace), giving back whitespace never
   * helps the match.
   */
  predicate IsHeaderLine(line: string)
  {
    var w := SpaceEnd(line, 0);
    w == |line| || line[w] == '/' || line[w] == '*'
  }

  /** The index of the first line that is code: found_code turns true there. */
  function FirstCode(lines: seq<string>): (r: nat)
    ensures r <= |lines|
    ensures forall k :: 0 <= k < r ==> IsHeaderLine(lines[k])
    ensures r < |lines| ==> !IsHeaderLine(lines[r])
  {
    if lines == [] || !IsHeaderLine(lines[0]) then 0
    else
      var r := FirstCode(lines[1..]);
      assert forall k :: 1 <= k < r + 1 ==> lines[k] == lines[1..][k - 1];
      r + 1
  }

  /** What the file holds after update_blurb: the blurb, then its code. */
  function Updated(lines: seq<string>): seq<string>
  {
    BLURB + lines[FirstCode(lines)..]
  }

  /**
   * update_blurb on one file: the lines before the first code line are
   * the old blurb, and the file is rewritten when they differ from BLURB.
   * Either way the file then holds the blurb and then its code.
   */
  method UpdateFile(lines: seq<string>) returns (rewritten: bool, content: seq<string>)
    ensures rewritten <==> lines[..FirstCode(lines)] != BLURB
    ensures content == Updated(lines)
    ensures !rewritten ==> content == lines
  {
    var foundCode := false;
    var blurbLines := [];
    var codeLines := [];
    var i := 0;
    ghost var k := FirstCode(lines);
    while i < |lines|
      invariant 0 <= i <= |lines|
      invariant foundCode <==> k < i
      invariant !foundCode ==> blurbLines == lines[..i] && codeLines == []
      invariant foundCode ==> blurbLines == lines[..k] && codeLines == lines[k..i]
    {
      var line := lines[i];
      if !foundCode && !IsHeaderLine(line) {
        foundCode := true;
      }
      if foundCode {
        codeLines := codeLines + [line];
      } else {
        blurbLines := blurbLines + [line];
      }
      assert lines[..i + 1] == lines[..i] + [line];
      i := i + 1;
    }
    assert foundCode ==> lines[k..i] == lines[k..];
    assert !foundCode ==> k == |lines| && lines[k..] == [];
    rewritten := blurbLines != BLURB;
    if rewritten {
      content := BLURB + codeLines;
    } else {
      content := lines;
      assert lines == lines[..k] + lines[k..];
    }
  }

  /** Every line of the blurb is one update_blurb counts as blurb. */
  lemma BlurbIsHeader()
    ensures forall k :: 0 <= k < |BLURB| ==> IsHeaderLine(BLURB[k])
  {
    forall k | 0 <= k < |BLURB|
      ensures IsHeaderLine(BLURB[k])
    {
      var line := BLURB[k];
      if k == 0 {
        assert line == "/*\n";
        assert line[0] == '/';
      } else if k == |BLURB| - 1 {
        assert line == "\n";
        assert SpaceEnd(line, 1) == 1;
      } else {
        assert line[0] == ' ' && line[1] == '*' by {
          if k <= |LICENCE_TEXT| {
            assert line == " *" + LICENCE_TEXT[k - 1] + "\n";
          } else {
            assert line == " */\n";
          }
        }
        assert SpaceEnd(line, 1) == 1;
      }
    }
  }

  /** In a file that starts with the blurb and goes on with code, the code starts after the blurb. */
  lemma {:induction false} FirstCodeAfterBlurb(header: seq<string>, code: seq<string>)
    requires forall k :: 0 <= k < |header| ==> IsHeaderLine(header[k])
    requires code == [] || !IsHeaderLine(code[0])
    ensures FirstCode(header + code) == |header|
    decreases |header|
  {
    if header == [] {
      assert header + code == code;
    } else {
      assert (header + code)[1..] == header[1..] + code;
      forall k | 0 <= k < |header[1..]|
        ensures IsHeaderLine(header[1..][k])
      {
        assert header[1..][k] == header[k + 1];
      }
      FirstCodeAfterBlurb(header[1..], code);
      assert (header + code)[0] == header[0];
    }
  }

  /** Updating a file that has been updated leaves it as it is, and does not rewrite it. */
  lemma UpdateIdempotent(lines: seq<string>)
    ensures Updated(Updated(lines)) == Updated(lines)
    ensures Updated(lines)[..FirstCode(Updated(lines))] == BLURB
  {
    var code := lines[FirstCode(lines)..];
    BlurbIsHeader();
    assert code == [] || code[0] == lines[FirstCode(lines)];
    FirstCodeAfterBlurb(BLURB, code);
    assert (BLURB + code)[|BLURB|..] == code;
    assert (BLURB + code)[..|BLURB|] == BLURB;
  }

  /** The code of a file is what is left after its blurb. */
  lemma UpdateKeepsCode(lines: seq<string>)
    ensures lines == lines[..FirstCode(lines)] + Updated(lines)[|BLURB|..]
  {
    assert Updated(lines)[|BLURB|..] == lines[FirstCode(lines)..];
  }

  predicate EndsWith(s: string, suffix: string)
  {
    |suffix| <= |s| && s[|s| - |suffix|..] == suffix
  }

  /** The files os.walk lists under root/src and then under root/test. */
  function Listing(root: string, walk: map<string, seq<string>>): seq<string>
  {
    var src := root + "/" + JAVA_DIRECTORIES[0];
    var test := root + "/" + JAVA_DIRECTORIES[1];
    (if src in walk then walk[src] else []) + (if test in walk then walk[test] else [])
  }

  /** A file after the listed paths have been visited: updated if it was listed and is Java source. */
  function Expected(files0: map<string, seq<string>>, listed: seq<string>, p: string): seq<string>
    requires p in files0
  {
    if p in listed && EndsWith(p, ".java") then Updated(files0[p]) else files0[p]
  }

  /** files is what files0 becomes once the paths seen have been visited. */
  predicate Agrees(files0: map<string, seq<string>>, files: map<string, seq<string>>, seen: seq<string>)
  {
    files.Keys == files0.Keys && forall p :: p in files0 ==> files[p] == Expected(files0, seen, p)
  }

  /** Updating a Java file keeps the files as Expected, with that file now seen. */
  lemma VisitedJava(files0: map<string, seq<string>>, files: map<string, seq<string>>, seen: seq<string>, path: string)
    requires path in files0 && EndsWith(path, ".java") && Agrees(files0, files, seen)
    ensures Agrees(files0, files[path := Updated(files[path])], seen + [path])
  {
    UpdateIdempotent(files0[path]);
    forall p | p in files0
      ensures files[path := Updated(files[path])][p] == Expected(files0, seen + [path], p)
    {
      assert p in seen + [path] <==> p in seen || p == path;
    }
  }

  /** Passing over another file keeps the files as Expected, with that file now seen. */
  lemma VisitedOther(files0: map<string, seq<string>>, files: map<string, seq<string>>, seen: seq<string>, path: string)
    requires !EndsWith(path, ".java") && Agrees(files0, files, seen)
    ensures Agrees(files0, files, seen + [path])
  {
    forall p | p in files0
      ensures files[p] == Expected(files0, seen + [path], p)
    {
      assert p in seen + [path] <==> p in seen || p == path;
    }
  }

  /** The loop of main: update_blurb on each listed path that ends with ".java". */
  method UpdateAll(listing: seq<string>, files0: map<string, seq<string>>) returns (files: map<string, seq<string>>)
    requires forall k :: 0 <= k < |listing| ==> listing[k] in files0
    ensures Agrees(files0, files, listing)
  {
    files := files0;
    var i := 0;
    while i < |listing|
      invariant 0 <= i <= |listing|
      invariant Agrees(files0, files, listing[..i])
    {
      var path := listing[i];
      ghost var seen := listing[..i];
      assert listing[..i + 1] == seen + [path];
      if EndsWith(path, ".java") {
        var rewritten, content := UpdateFile(files[path]);
        VisitedJava(files0, files, seen, path);
        files := files[path := content];
      } else {
        VisitedOther(files0, files, seen, path);
      }
      i := i + 1;
    }
    assert listing[..i] == listing;
  }

  /**
   * main: every file listed under src and test whose name ends with
   * ".java" is updated, and every other file is left as it is.
   */
  method UpdateSources(root: string, walk: map<string, seq<string>>, files0: map<string, seq<string>>)
    returns (files: map<string, seq<string>>)
    requires forall k :: 0 <= k < |Listing(root, walk)| ==> Listing(root, walk)[k] in files0
    ensures Agrees(files0, files, Listing(root, walk))
  {
    files := UpdateAll(Listing(root, walk), files0);
  }

  /** Running main a second time over the same listing changes no file. */
  lemma UpdateSourcesIdempotent(files0: map<string, seq<string>>, files1: map<string, seq<string>>,
                       files2: map<string, seq<string>>, listed: seq<string>)
    requires Agrees(files0, files1, listed) && Agrees(files1, files2, listed)
    ensures files2 == files1
  {
    forall p | p in files1
      ensures files2[p] == files1[p]
    {
      UpdateIdempotent(files0[p]);
    }
  }
}
