/**
 * script/download-3pps.py: reads the Eclipse .classpath file for the
 * libraries under 3pp/, and downloads each one that is not there yet from
 * http://jcarder.org/3pp/<name>/<version>/<jar>.
 *
 * The file system is a map from path to content, the web a map from URL
 * to the response served there (a URL not in it is one urlopen fails on),
 * and the .classpath file its lines, each with its newline.
 */
module Download3pps {
  import JavaLang
  import opened Wrappers

  const URLBASE := "http://jcarder.org/3pp/"
  /** The literal part of 'kind="lib" path="3pp/([^"]+)"'. */
  const LIB_PREFIX := "kind=\"lib\" path=\"3pp/"
  /** 2 ** 13, the size download_file reads at a time. */
  const CHUNK := 8192

  // ---------------------------------------------------------------------
  // get_3pps

  /** The first '"' at or after from, if any. */
  function QuoteFrom(line: string, from: nat): (r: nat)
    requires from <= |line|
    ensures from <= r <= |line|
    ensures '"' !in line[from..r]
    ensures r < |line| ==> line[r] == '"'
    decreases |line| - from
  {
    if from == |line| || line[from] == '"' then from
    else
      var r := QuoteFrom(line, from + 1);
      assert line[from..r] == [line[from]] + line[from + 1..r];
      r
  }

  /** The pattern matched at position i: the prefix, one or more non-quotes, and a quote. */
  function MatchAt(line: string, i: nat): (r: Option<string>)
    requires i <= |line|
    ensures r.Some? ==> r.value != [] && '"' !in r.value
    ensures r.Some? ==> i + |LIB_PREFIX| + |r.value| < |line|
    ensures r.Some? ==> line[i..i + |LIB_PREFIX|] == LIB_PREFIX
    ensures r.Some? ==> line[i + |LIB_PREFIX|..i + |LIB_PREFIX| + |r.value|] == r.value
    ensures r.Some? ==> line[i + |LIB_PREFIX| + |r.value|] == '"'
  {
    if LIB_PREFIX <= line[i..] then
      var start := i + |LIB_PREFIX|;
      var q := QuoteFrom(line, start);
      if q < |line| && q > start then Some(line[start..q]) else None
    else None
  }

  /** re.search: the first position, from i on, where the pattern matches. */
  function SearchFrom(line: string, i: nat): (r: Option<string>)
    requires i <= |line|
    ensures r.Some? ==> exists j :: i <= j <= |line| && MatchAt(line, j) == r
    ensures r.None? <==> forall j :: i <= j <= |line| ==> MatchAt(line, j).None?
    decreases |line| - i
  {
    var m := MatchAt(line, i);
    if m.Some? then m
    else if i == |line| then None
    else SearchFrom(line, i + 1)
  }

  /** The library a line names: the first match of the pattern in it. */
  function LibraryOf(line: string): (r: Option<string>)
    ensures r.Some? ==> r.value != [] && '"' !in r.value
  {
    SearchFrom(line, 0)
  }

  /**
   * A .classpath entry: when nothing before the attribute starts with a
   * 'k', the library is the path after "3pp/" up to the closing quote.
   */
  lemma LibraryOfEntry(pre: string, jar: string, post: string)
    requires 'k' !in pre && jar != [] && '"' !in jar
    ensures LibraryOf(pre + LIB_PREFIX + jar + "\"" + post) == Some(jar)
  {
    var line := pre + LIB_PREFIX + jar + "\"" + post;
    PreHasNoMatch(line, pre);
    NoEarlierMatch(line, |pre|);
    MatchOfEntry(line, pre, jar, post);
  }

  lemma PreHasNoMatch(line: string, pre: string)
    requires pre <= line && 'k' !in pre
    ensures forall j :: 0 <= j < |pre| ==> MatchAt(line, j).None?
  {
    forall j | 0 <= j < |pre|
      ensures MatchAt(line, j).None?
    {
      assert line[j] == pre[j] != LIB_PREFIX[0];
      assert !(LIB_PREFIX <= line[j..]) by {
        assert line[j..][0] == line[j];
      }
    }
  }

  lemma MatchOfEntry(line: string, pre: string, jar: string, post: string)
    requires line == pre + LIB_PREFIX + jar + "\"" + post
    requires jar != [] && '"' !in jar
    ensures MatchAt(line, |pre|) == Some(jar)
  {
    var start := |pre| + |LIB_PREFIX|;
    assert line[|pre|..] == LIB_PREFIX + (jar + "\"" + post);
    assert line[start..start + |jar|] == jar;
    QuoteAfter(line, start, jar);
  }

  lemma QuoteAfter(line: string, start: nat, jar: string)
    requires start + |jar| < |line| && line[start..start + |jar|] == jar && line[start + |jar|] == '"'
    requires '"' !in jar
    ensures QuoteFrom(line, start) == start + |jar|
  {
    forall p | start <= p < start + |jar|
      ensures line[p] != '"'
    {
      assert line[p] == jar[p - start];
    }
    QuoteSkip(line, start, start + |jar|);
  }

  lemma {:induction false} QuoteSkip(line: string, p: nat, e: nat)
    requires p <= e < |line| && line[e] == '"'
    requires forall x :: p <= x < e ==> line[x] != '"'
    ensures QuoteFrom(line, p) == e
    decreases e - p
  {
    if p < e {
      QuoteSkip(line, p + 1, e);
    }
  }

  lemma {:induction false} NoEarlierMatch(line: string, k: nat)
    requires k <= |line|
    requires forall j :: 0 <= j < k ==> MatchAt(line, j).None?
    ensures SearchFrom(line, 0) == SearchFrom(line, k)
    decreases k
  {
    if k > 0 {
      NoEarlierMatch(line, k - 1);
      assert MatchAt(line, k - 1).None?;
    }
  }

  /** The libraries listed in the lines, in order. */
  function Libraries(lines: seq<string>): seq<string>
  {
    if lines == [] then []
    else Found(lines[0]) + Libraries(lines[1..])
  }

  /** The library a line names, if any, as a sequence of zero or one. */
  function Found(line: string): seq<string>
  {
    match LibraryOf(line)
    case Some(jar) => [jar]
    case None => []
  }

  /** Every library named is a nonempty path without quotes. */
  lemma {:induction false} LibrariesArePaths(lines: seq<string>)
    ensures forall k :: 0 <= k < |Libraries(lines)| ==> Libraries(lines)[k] != [] && '"' !in Libraries(lines)[k]
    decreases |lines|
  {
    if lines != [] {
      LibrariesArePaths(lines[1..]);
      var f := Found(lines[0]);
      var rest := Libraries(lines[1..]);
      forall k | 0 <= k < |f + rest|
        ensures (f + rest)[k] != [] && '"' !in (f + rest)[k]
      {
        if k >= |f| {
          assert (f + rest)[k] == rest[k - |f|];
        }
      }
    }
  }

  lemma LibrariesStep(lines: seq<string>, i: nat)
    requires i < |lines|
    ensures Libraries(lines[i..]) == Found(lines[i]) + Libraries(lines[i + 1..])
  {
    assert lines[i..][1..] == lines[i + 1..];
  }

  /** get_3pps. */
  method Get3pps(lines: seq<string>) returns (jars: seq<string>)
    ensures jars == Libraries(lines)
  {
    jars := [];
    var i := 0;
    while i < |lines|
      invariant 0 <= i <= |lines|
      invariant jars + Libraries(lines[i..]) == Libraries(lines)
    {
      var m := LibraryOf(lines[i]);
      LibrariesStep(lines, i);
      ghost var rest := Libraries(lines[i + 1..]);
      if m.Some? {
        assert Found(lines[i]) == [m.value];
        assert jars + ([m.value] + rest) == (jars + [m.value]) + rest;
        jars := jars + [m.value];
      } else {
        assert Found(lines[i]) == [];
        assert [] + rest == rest;
      }
      i := i + 1;
    }
  }

  // ---------------------------------------------------------------------
  // get_url

  /** ".jar" starts at position k of s. */
  predicate JarAt(s: string, k: int)
  {
    0 <= k && k + 4 <= |s| && s[k..k + 4] == ".jar"
  }

  /** The last ".jar" that starts at or before j. */
  function LastJar(s: string, j: int): (r: Option<nat>)
    requires j <= |s| - 4
    ensures r.Some? ==> r.value <= j && JarAt(s, r.value)
    ensures r.Some? ==> forall k :: r.value < k <= j ==> !JarAt(s, k)
    ensures r.None? ==> forall k :: 0 <= k <= j ==> !JarAt(s, k)
    decreases j + 1
  {
    if j < 0 then None
    else if JarAt(s, j) then Some(j)
    else LastJar(s, j - 1)
  }

  /** The last '-' at or before j. */
  function LastDash(s: string, j: int): (r: Option<nat>)
    requires j < |s|
    ensures r.Some? ==> r.value <= j && s[r.value] == '-'
    ensures r.Some? ==> forall k :: r.value < k <= j ==> s[k] != '-'
    ensures r.None? ==> forall k :: 0 <= k <= j ==> s[k] != '-'
    decreases j + 1
  {
    if j < 0 then None
    else if s[j] == '-' then Some(j)
    else LastDash(s, j - 1)
  }

  /**
   * '(.*)\-(.+)\.jar' matched from the start of a line without '\n': (.*)
   * runs to the last '-' that has a ".jar" at least two places after it,
   * and (.+) to the last ".jar".
   */
  function LineGroups(s: string): (r: Option<(string, string)>)
    ensures r.Some? ==> r.value.1 != []
  {
    if |s| < 4 then None
    else
      match LastJar(s, |s| - 4)
      case None => None
      case Some(j) =>
        match LastDash(s, j - 2)
        case None => None
        case Some(k) => Some((s[..k], s[k + 1..j]))
  }

  /** re.search over a name that may hold newlines: the first line that matches. */
  function FirstGroups(lines: seq<string>): Option<(string, string)>
  {
    if lines == [] then None
    else if LineGroups(lines[0]).Some? then LineGroups(lines[0])
    else FirstGroups(lines[1..])
  }

  /** get_url. */
  function GetUrl(jar: string): string
  {
    match FirstGroups(JavaLang.SplitAll(jar, '\n'))
    case Some((name, version)) => URLBASE + name + "/" + version + "/" + jar
    case None => URLBASE + jar
  }

  /**
   * A jar named name-version.jar is fetched from URLBASE/name/version/,
   * whatever dashes the name holds.
   */
  lemma VersionedJarUrl(name: string, version: string)
    requires '\n' !in name && '\n' !in version && '-' !in version && version != []
    ensures GetUrl(name + "-" + version + ".jar")
            == URLBASE + name + "/" + version + "/" + name + "-" + version + ".jar"
  {
    var s := name + "-" + version + ".jar";
    assert '\n' !in s;
    assert JavaLang.SplitAll(s, '\n') == [s];
    VersionedGroups(name, version);
    assert [s][1..] == [];
  }

  /** get_url("junit-4.4.jar") is http://jcarder.org/3pp/junit/4.4/junit-4.4.jar (URLBASE is the first part). */
  lemma JunitUrl()
    ensures GetUrl("junit-4.4.jar") == URLBASE + "junit" + "/" + "4.4" + "/" + "junit-4.4.jar"
  {
    var name, version := "junit", "4.4";
    assert '\n' !in name && '\n' !in version && '-' !in version;
    VersionedJarUrl(name, version);
    assert name + "-" + version + ".jar" == "junit-4.4.jar";
  }

  /** The two groups of name-version.jar are the name and the version. */
  lemma VersionedGroups(name: string, version: string)
    requires '-' !in version && version != []
    ensures LineGroups(name + "-" + version + ".jar") == Some((name, version))
  {
    var s := name + "-" + version + ".jar";
    var j := |s| - 4;
    assert JarAt(s, j);
    var n := |name|;
    assert s[n] == '-';
    forall k | n < k <= j - 2
      ensures s[k] != '-'
    {
      assert s[k] == version[k - n - 1];
    }
    DashAt(s, j - 2, n);
    assert s[..n] == name;
    assert s[n + 1..j] == version;
  }

  lemma {:induction false} DashAt(s: string, j: int, n: nat)
    requires n <= j < |s| && s[n] == '-'
    requires forall k :: n < k <= j ==> s[k] != '-'
    ensures LastDash(s, j) == Some(n)
    decreases j - n
  {
    if j > n {
      DashAt(s, j - 1, n);
    }
  }

  /** A file name without a dash is fetched from URLBASE itself. */
  lemma UnversionedJarUrl(jar: string)
    requires '\n' !in jar && '-' !in jar
    ensures GetUrl(jar) == URLBASE + jar
  {
    assert JavaLang.SplitAll(jar, '\n') == [jar];
    forall j | j < |jar|
      ensures LastDash(jar, j).None?
    {
      NoDash(jar, j);
    }
    assert LineGroups(jar).None?;
    assert [jar][1..] == [];
    assert FirstGroups([jar]).None?;
  }

  lemma {:induction false} NoDash(s: string, j: int)
    requires '-' !in s && j < |s|
    ensures LastDash(s, j).None?
    decreases j + 1
  {
    if j >= 0 {
      assert s[j] in s;
      NoDash(s, j - 1);
    }
  }

  // ---------------------------------------------------------------------
  // download_file and main

  /**
   * What an opened URL serves: the bytes that arrive, and whether the read
   * after them raises (a connection dropped mid-stream) instead of coming
   * back empty.
   */
  datatype Response = Response(body: seq<bv8>, broken: bool)

  /**
   * download_file, once urlopen has succeeded: the destination is opened,
   * then the response is read CHUNK bytes at a time until a read comes
   * back empty, and every chunk is written out.  A read that raises ends
   * the download with the chunks before it already written.
   */
  method DownloadFile(resp: Response) returns (written: seq<bv8>, readCalls: nat, failed: bool)
    ensures written == resp.body
    ensures failed == resp.broken
    ensures readCalls == (|resp.body| + CHUNK - 1) / CHUNK + 1
  {
    var body := resp.body;
    written := [];
    readCalls := 0;
    failed := false;
    var pos := 0;
    while true
      invariant 0 <= pos <= |body| && written == body[..pos] && !failed
      invariant pos == |body| || pos % CHUNK == 0
      invariant readCalls == pos / CHUNK + (if pos == |body| && pos % CHUNK != 0 then 1 else 0)
      decreases |body| - pos
    {
      var end := if pos + CHUNK <= |body| then pos + CHUNK else |body|;
      var data := body[pos..end];
      readCalls := readCalls + 1;
      if pos == |body| && resp.broken {
        failed := true;
        break;
      }
      if data == [] {
        break;
      }
      written := written + data;
      assert body[..end] == body[..pos] + data;
      pos := end;
    }
  }

  /** os.path.join of two parts: an absolute second part replaces the first. */
  function JoinPath(a: string, b: string): string
  {
    if |b| > 0 && b[0] == '/' then b
    else if a == [] || a[|a| - 1] == '/' then a + b
    else a + "/" + b
  }

  /** What main leaves: the files, the URLs it announced, and whether a download failed. */
  datatype Outcome = Outcome(files: map<string, seq<bv8>>, announced: seq<string>, failed: bool)

  /**
   * The downloads main makes for the libraries jars, in order: a library
   * whose file exists is skipped; otherwise its URL is announced and the
   * bytes served there become the file.  A URL that cannot be opened ends
   * the run with no file made; a read that raises ends it with the bytes
   * received so far left in the file.
   */
  function Fetch(destDir: string, jars: seq<string>, files: map<string, seq<bv8>>,
                 web: map<string, Response>): Outcome
  {
    if jars == [] then Outcome(files, [], false)
    else
      var path := JoinPath(destDir, jars[0]);
      if path in files then Fetch(destDir, jars[1..], files, web)
      else
        var url := GetUrl(jars[0]);
        if url !in web then Outcome(files, [url], true)
        else if web[url].broken then Outcome(files[path := web[url].body], [url], true)
        else
          var rest := Fetch(destDir, jars[1..], files[path := web[url].body], web);
          Outcome(rest.files, [url] + rest.announced, rest.failed)
  }

  function Announce(urls: seq<string>, o: Outcome): Outcome
  {
    Outcome(o.files, urls + o.announced, o.failed)
  }

  /** main, after get_3pps: the loop over the libraries. */
  method DownloadMissing(destDir: string, classpath: seq<string>, files0: map<string, seq<bv8>>,
              web: map<string, Response>) returns (files: map<string, seq<bv8>>, announced: seq<string>, failed: bool)
    ensures Outcome(files, announced, failed) == Fetch(destDir, Libraries(classpath), files0, web)
  {
    var jars := Get3pps(classpath);
    files := files0;
    announced := [];
    failed := false;
    var i := 0;
    while i < |jars|
      invariant 0 <= i <= |jars|
      invariant Announce(announced, Fetch(destDir, jars[i..], files, web)) == Fetch(destDir, jars, files0, web)
    {
      var jarPath := JoinPath(destDir, jars[i]);
      FetchStep(destDir, jars, i, files, web);
      if jarPath !in files {
        var url := GetUrl(jars[i]);
        if url !in web {
          announced := announced + [url];
          failed := true;
          return;
        }
        var body, chunks, broken := DownloadFile(web[url]);
        if broken {
          announced := announced + [url];
          files := files[jarPath := body];
          failed := true;
          return;
        }
        AnnounceTwice(announced, url, Fetch(destDir, jars[i + 1..], files[jarPath := body], web));
        announced := announced + [url];
        files := files[jarPath := body];
      }
      i := i + 1;
    }
  }

  /** One step of Fetch, at position i. */
  lemma FetchStep(destDir: string, jars: seq<string>, i: nat, files: map<string, seq<bv8>>,
                  web: map<string, Response>)
    requires i < |jars|
    ensures var path := JoinPath(destDir, jars[i]);
      var url := GetUrl(jars[i]);
      Fetch(destDir, jars[i..], files, web)
      == if path in files then Fetch(destDir, jars[i + 1..], files, web)
         else if url !in web then Outcome(files, [url], true)
         else if web[url].broken then Outcome(files[path := web[url].body], [url], true)
         else Announce([url], Fetch(destDir, jars[i + 1..], files[path := web[url].body], web))
  {
    assert jars[i..][0] == jars[i];
    assert jars[i..][1..] == jars[i + 1..];
  }

  lemma AnnounceTwice(urls: seq<string>, url: string, o: Outcome)
    ensures Announce(urls, Announce([url], o)) == Announce(urls + [url], o)
  {
    assert urls + ([url] + o.announced) == (urls + [url]) + o.announced;
  }

  /** After a run that did not fail, every library's file exists. */
  lemma {:induction false} FetchedAll(destDir: string, jars: seq<string>, files: map<string, seq<bv8>>,
                                      web: map<string, Response>)
    requires !Fetch(destDir, jars, files, web).failed
    ensures forall k :: 0 <= k < |jars| ==> JoinPath(destDir, jars[k]) in Fetch(destDir, jars, files, web).files
    ensures files.Keys <= Fetch(destDir, jars, files, web).files.Keys
    decreases |jars|
  {
    if jars != [] {
      var path := JoinPath(destDir, jars[0]);
      var next := if path in files then files else files[path := web[GetUrl(jars[0])].body];
      FetchedAll(destDir, jars[1..], next, web);
      forall k | 0 <= k < |jars|
        ensures JoinPath(destDir, jars[k]) in Fetch(destDir, jars, files, web).files
      {
        if k > 0 {
          assert jars[k] == jars[1..][k - 1];
        }
      }
    }
  }

  /**
   * A file that exists before the run is never removed or rewritten,
   * whether the run fails or not: main only writes a library whose file
   * does not exist.
   */
  lemma {:induction false} FetchKeeps(destDir: string, jars: seq<string>, files: map<string, seq<bv8>>,
                                      web: map<string, Response>)
    ensures forall p :: p in files ==>
      p in Fetch(destDir, jars, files, web).files && Fetch(destDir, jars, files, web).files[p] == files[p]
    decreases |jars|
  {
    if jars != [] {
      var path := JoinPath(destDir, jars[0]);
      var url := GetUrl(jars[0]);
      if path in files {
        FetchKeeps(destDir, jars[1..], files, web);
      } else if url in web && !web[url].broken {
        FetchKeeps(destDir, jars[1..], files[path := web[url].body], web);
      }
    }
  }

  /**
   * Only a library whose file did not exist is announced: a library whose
   * file exists is skipped with no message and no download.
   */
  lemma {:induction false} OnlyMissingAnnounced(destDir: string, jars: seq<string>, files: map<string, seq<bv8>>,
                                                web: map<string, Response>)
    ensures forall u :: u in Fetch(destDir, jars, files, web).announced ==>
      exists k :: 0 <= k < |jars| && JoinPath(destDir, jars[k]) !in files && u == GetUrl(jars[k])
    decreases |jars|
  {
    if jars != [] {
      var path := JoinPath(destDir, jars[0]);
      var url := GetUrl(jars[0]);
      var o := Fetch(destDir, jars, files, web);
      if path in files {
        OnlyMissingAnnounced(destDir, jars[1..], files, web);
        forall u | u in o.announced
          ensures exists k :: 0 <= k < |jars| && JoinPath(destDir, jars[k]) !in files && u == GetUrl(jars[k])
        {
          var k :| 0 <= k < |jars[1..]| && JoinPath(destDir, jars[1..][k]) !in files && u == GetUrl(jars[1..][k]);
          assert jars[1..][k] == jars[k + 1];
        }
      } else if url in web && !web[url].broken {
        var next := files[path := web[url].body];
        OnlyMissingAnnounced(destDir, jars[1..], next, web);
        assert o.announced == [url] + Fetch(destDir, jars[1..], next, web).announced;
        forall u | u in o.announced
          ensures exists k :: 0 <= k < |jars| && JoinPath(destDir, jars[k]) !in files && u == GetUrl(jars[k])
        {
          if u != url {
            var k :| 0 <= k < |jars[1..]| && JoinPath(destDir, jars[1..][k]) !in next && u == GetUrl(jars[1..][k]);
            assert jars[1..][k] == jars[k + 1];
          }
        }
      } else {
        assert o.announced == [url];
      }
    }
  }

  /**
   * A download whose read raises leaves the bytes received so far as the
   * library's file and ends the run; the next run then finds the file and
   * keeps the truncated bytes.
   */
  lemma PartialFileKept(destDir: string, jars: seq<string>, files: map<string, seq<bv8>>,
                        web: map<string, Response>)
    requires jars != [] && JoinPath(destDir, jars[0]) !in files
    requires GetUrl(jars[0]) in web && web[GetUrl(jars[0])].broken
    ensures var once := Fetch(destDir, jars, files, web);
      var path := JoinPath(destDir, jars[0]);
      once.failed && once.announced == [GetUrl(jars[0])]
      && path in once.files && once.files[path] == web[GetUrl(jars[0])].body
      && path in Fetch(destDir, jars, once.files, web).files
      && Fetch(destDir, jars, once.files, web).files[path] == web[GetUrl(jars[0])].body
  {
    FetchKeeps(destDir, jars, Fetch(destDir, jars, files, web).files, web);
  }

  /** When every library's file exists, main downloads nothing. */
  lemma {:induction false} NothingToFetch(destDir: string, jars: seq<string>, files: map<string, seq<bv8>>,
                                          web: map<string, Response>)
    requires forall k :: 0 <= k < |jars| ==> JoinPath(destDir, jars[k]) in files
    ensures Fetch(destDir, jars, files, web) == Outcome(files, [], false)
    decreases |jars|
  {
    if jars != [] {
      assert JoinPath(destDir, jars[0]) in files;
      forall k | 0 <= k < |jars[1..]|
        ensures JoinPath(destDir, jars[1..][k]) in files
      {
        assert jars[1..][k] == jars[k + 1];
      }
      NothingToFetch(destDir, jars[1..], files, web);
    }
  }

  /** Running main again after a run that did not fail announces and changes nothing. */
  lemma DownloadIdempotent(destDir: string, classpath: seq<string>, files: map<string, seq<bv8>>,
                       web: map<string, Response>)
    requires !Fetch(destDir, Libraries(classpath), files, web).failed
    ensures var once := Fetch(destDir, Libraries(classpath), files, web).files;
      Fetch(destDir, Libraries(classpath), once, web) == Outcome(once, [], false)
  {
    var jars := Libraries(classpath);
    FetchedAll(destDir, jars, files, web);
    NothingToFetch(destDir, jars, Fetch(destDir, jars, files, web).files, web);
  }
}
