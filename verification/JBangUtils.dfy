/** Deciding whether a file is a JBang script: some line starts with one of a fixed list of
    prefixes. This list is separate from, and differs from, the directive catalog. */
module JBangUtils {
  import opened Wrappers
  import opened Text
  import opened Arrays
  import Directives

  const SUPPORTED_LANGUAGES: seq<string> := ["java", "groovy", "kotlin", "jshell", "jbang"]

  /** The recognised line prefixes. The last four need no trailing space. */
  const KNOWN_DIRECTIVES: seq<string> := [
    "///usr/bin/env jbang ", "//DEPS ", "//JAVA ", "//GAV ", "//FILES ", "//SOURCES ",
    "//DESCRIPTION ", "//REPOS ", "//JAVAC_OPTIONS ", "//JAVA_OPTIONS ", "//JAVAAGENT ",
    "//CDS ", "//KOTLIN ", "//GROOVY ", "//MANIFEST", "//RUNTIME_OPTIONS",
    "//COMPILE_OPTIONS", "//NATIVE_OPTIONS"]

  /** `isJBangDirective(line)`: the line starts with one of the known prefixes. */
  function IsJBangDirective(line: string): (r: bool)
    ensures r <==> exists k :: 0 <= k < |KNOWN_DIRECTIVES| && StartsWith(line, KNOWN_DIRECTIVES[k])
  {
    Find(KNOWN_DIRECTIVES, (d: string) => StartsWith(line, d)).Some?
  }

  /** The argument of `isJBangFile`: a whole text or its lines. */
  datatype Content = Whole(text: string) | Lines(lines: seq<string>)

  function ContentLines(content: Content): seq<string> {
    match content
    case Whole(text) => SplitLines(text)
    case Lines(lines) => lines
  }

  /** `isJBangFile(content)`: some line is a directive; a text is first split at `\r?\n`. */
  function IsJBangFile(content: Content): (r: bool)
    ensures r <==> exists i :: 0 <= i < |ContentLines(content)| && IsJBangDirective(ContentLines(content)[i])
  {
    Find(ContentLines(content), IsJBangDirective).Some?
  }

  /** The verdict depends only on which lines occur, not on their order. */
  lemma IsJBangFileOrderFree(a: seq<string>, b: seq<string>)
    requires multiset(a) == multiset(b)
    ensures IsJBangFile(Lines(a)) == IsJBangFile(Lines(b))
  {
    FindOrderFree(a, b, IsJBangDirective);
  }

  /** Every known prefix is `//` followed by a character other than a space. */
  lemma KnownShape()
    ensures forall k :: 0 <= k < |KNOWN_DIRECTIVES| ==>
      |KNOWN_DIRECTIVES[k]| >= 6 && KNOWN_DIRECTIVES[k][0] == '/' && KNOWN_DIRECTIVES[k][1] == '/'
      && KNOWN_DIRECTIVES[k][2] != ' '
  {
  }

  /** A directive line starts with `//` and a character other than a space. */
  lemma DirectiveShape(line: string)
    requires IsJBangDirective(line)
    ensures |line| >= 6 && line[0] == '/' && line[1] == '/' && line[2] != ' '
  {
    var k :| 0 <= k < |KNOWN_DIRECTIVES| && StartsWith(line, KNOWN_DIRECTIVES[k]);
    var d := KNOWN_DIRECTIVES[k];
    KnownShape();
    assert line[..|d|] == d;
    assert line[0] == d[0] && line[1] == d[1] && line[2] == d[2];
  }

  /** No line, or only the empty line, is no JBang file. */
  lemma EmptyDocument()
    ensures !IsJBangFile(Lines([]))
    ensures !IsJBangFile(Whole(""))
  {
    KnownShape();
    SplitNone("", '\n');
    assert SplitLines("") == [""];
  }

  /** A line that starts with a whitespace character, or with `// ` (a plain comment),
      is no directive. */
  lemma NotDirectives(line: string)
    requires (line != [] && IsWhitespace(line[0])) || StartsWith(line, "// ")
    ensures !IsJBangDirective(line)
  {
    if StartsWith(line, "// ") {
      CommentNotDirective(line);
    } else {
      IndentedNotDirective(line);
    }
  }

  lemma CommentNotDirective(line: string)
    requires StartsWith(line, "// ")
    ensures !IsJBangDirective(line)
  {
    assert line[2] == "// "[2];
    KnownShape();
    forall k | 0 <= k < |KNOWN_DIRECTIVES| ensures !StartsWith(line, KNOWN_DIRECTIVES[k]) {
      DifferAt(line, KNOWN_DIRECTIVES[k], 2);
    }
  }

  lemma IndentedNotDirective(line: string)
    requires line != [] && IsWhitespace(line[0])
    ensures !IsJBangDirective(line)
  {
    assert !IsWhitespace('/');
    KnownShape();
    forall k | 0 <= k < |KNOWN_DIRECTIVES| ensures !StartsWith(line, KNOWN_DIRECTIVES[k]) {
      DifferAt(line, KNOWN_DIRECTIVES[k], 0);
    }
  }

  /** `//MANIFEST` needs no space behind it, `//DEPS` does. */
  lemma SpaceRules()
    ensures IsJBangDirective("//MANIFESTX")
    ensures !IsJBangDirective("//DEPS")
  {
    assert StartsWith("//MANIFESTX", KNOWN_DIRECTIVES[14]);
    forall k | 0 <= k < |KNOWN_DIRECTIVES| ensures !StartsWith("//DEPS", KNOWN_DIRECTIVES[k]) {
      assert KNOWN_DIRECTIVES[k] != "//DEPS";
    }
  }

  /** The script header line counts as a directive. */
  lemma HeaderIsDirective()
    ensures IsJBangDirective(Directives.HEADER.name)
  {
    Directives.HeaderFacts();
    assert StartsWith(Directives.HEADER.name, KNOWN_DIRECTIVES[0]);
  }

  /** `q` and no known prefix extend one another. */
  predicate Unrelated(q: string) {
    forall k :: 0 <= k < |KNOWN_DIRECTIVES| ==>
      !StartsWith(KNOWN_DIRECTIVES[k], q) && !StartsWith(q, KNOWN_DIRECTIVES[k])
  }

  lemma DifferAt(p: string, q: string, i: nat)
    requires i < |p| && i < |q| && p[i] != q[i]
    ensures !StartsWith(p, q) && !StartsWith(q, p)
  {
    assert |q| <= |p| ==> p[..|q|][i] == p[i];
    assert |p| <= |q| ==> q[..|p|][i] == q[i];
  }

  /** A candidate that differs from every known prefix within its first five characters. */
  lemma UnrelatedByCharacters(q: string)
    requires |q| >= 5
    requires forall k :: 0 <= k < |KNOWN_DIRECTIVES| ==>
      KNOWN_DIRECTIVES[k][2] != q[2] || KNOWN_DIRECTIVES[k][3] != q[3] || KNOWN_DIRECTIVES[k][4] != q[4]
    ensures Unrelated(q)
  {
    KnownShape();
    forall k | 0 <= k < |KNOWN_DIRECTIVES|
      ensures !StartsWith(KNOWN_DIRECTIVES[k], q) && !StartsWith(q, KNOWN_DIRECTIVES[k])
    {
      var p := KNOWN_DIRECTIVES[k];
      var i := if p[2] != q[2] then 2 else if p[3] != q[3] then 3 else 4;
      DifferAt(p, q, i);
    }
  }

  lemma UnrelatedPrefix(q: string, line: string)
    requires Unrelated(q) && StartsWith(line, q)
    ensures !IsJBangDirective(line)
  {
    forall k | 0 <= k < |KNOWN_DIRECTIVES| ensures !StartsWith(line, KNOWN_DIRECTIVES[k]) {
      var p := KNOWN_DIRECTIVES[k];
      if StartsWith(line, p) {
        if |p| <= |q| {
          StartsWithBoth(line, p, q);
        } else {
          StartsWithBoth(line, q, p);
        }
      }
    }
  }

  /** `//MAIN`, `//MODULE`, `//PREVIEW` and `//Q:CONFIG` lines do not make a JBang file,
      although the catalog holds these directives. */
  lemma UnlistedDirectives(line: string)
    requires StartsWith(line, "//MAIN") || StartsWith(line, "//MODULE")
          || StartsWith(line, "//PREVIEW") || StartsWith(line, "//Q:CONFIG")
    ensures !IsJBangDirective(line)
  {
    if StartsWith(line, "//MAIN") {
      UnrelatedByCharacters("//MAIN");
      UnrelatedPrefix("//MAIN", line);
    } else if StartsWith(line, "//MODULE") {
      UnrelatedByCharacters("//MODULE");
      UnrelatedPrefix("//MODULE", line);
    } else if StartsWith(line, "//PREVIEW") {
      UnrelatedByCharacters("//PREVIEW");
      UnrelatedPrefix("//PREVIEW", line);
    } else {
      UnrelatedByCharacters("//Q:CONFIG");
      UnrelatedPrefix("//Q:CONFIG", line);
    }
  }
}
