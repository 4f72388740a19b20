/** The catalog of JBang directives: comment lines `//NAME ...` that configure a script. */
module Directives {
  import opened Text

  datatype Directive = Directive(name: string, description: string, reTriggerCompletion: bool, multipleAllowed: bool)
  {
    /** `prefix()`: the directive's name behind `//`. */
    function Prefix(): (r: string)
      ensures |r| == |name| + 2 && StartsWith(r, "//") && r[2..] == name
    {
      var r := "//" + name;
      assert r[..2] == "//" && r[2..] == name;
      r
    }

    /** `matches(line, includeSpace)`: the line starts with the prefix, followed by a space
        when `includeSpace` is set. */
    predicate Matches(line: string, includeSpace: bool) {
      StartsWith(line, Prefix() + (if includeSpace then " " else ""))
    }
  }

  const JAVA := Directive("JAVA", "Java version to use when running JBang", true, true)
  const DEPS := Directive("DEPS", "JBang dependencies", false, true)
  const JAVAC_OPTIONS := Directive("JAVAC_OPTIONS", "Options passed to the Java compiler", true, true)
  const JAVA_OPTIONS := Directive("JAVA_OPTIONS", "Options passed to the Java runtime", true, true)
  const COMPILE_OPTIONS := Directive("COMPILE_OPTIONS", "Options passed to the compiler", true, true)
  const RUNTIME_OPTIONS := Directive("RUNTIME_OPTIONS", "Options passed to the JVM runtime", true, true)
  const NATIVE_OPTIONS := Directive("NATIVE_OPTIONS", "Options passed to the native image builder", true, true)
  const MANIFEST := Directive("MANIFEST", "Write entries to META-INF/manifest.mf", false, true)
  const CDS := Directive("CDS", "Activate Class Data Sharing", false, true)
  const GAV := Directive("GAV", "Set Group, Artifact and Version", false, true)
  const DESCRIPTION := Directive("DESCRIPTION", "Markdown description for the JBang application/script", false, true)
  const JAVAAGENT := Directive("JAVAAGENT", "Activate agent packaging", false, true)
  const GROOVY := Directive("GROOVY", "Groovy version to use", true, true)
  const KOTLIN := Directive("KOTLIN", "Kotlin version to use", true, true)
  const MODULE := Directive("MODULE", "Treat resource as a module. Optionally with the given module name.", false, true)
  const MAIN := Directive("MAIN", "Override the main class", false, true)
  const PREVIEW := Directive("PREVIEW", "Enable Java preview features", false, true)
  const SOURCES := Directive("SOURCES", "Pattern to include as JBang sources", true, true)
  const FILES := Directive("FILES", "Mount files to build", true, true)
  const REPOS := Directive("REPOS", "Repositories used by Jbang to resolve dependencies", false, true)
  /** The name itself ends in a space. */
  const QUARKUS_CONFIG := Directive("Q:CONFIG ", "Quarkus configuration property", false, true)

  const FILES_PREFIX: string := FILES.Prefix() + " "
  const HEADER_PREFIX: string := "///usr/bin/env jbang "
  /** The script header line; not a directive, but offered like one. */
  const HEADER := Directive(HEADER_PREFIX + "\"$0\" \"$@\" ; exit $?", "JBang header", false, true)

  const JBANG_DIRECTIVES: seq<Directive> := [
    JAVA, DEPS, JAVAC_OPTIONS, JAVA_OPTIONS, RUNTIME_OPTIONS, COMPILE_OPTIONS, NATIVE_OPTIONS,
    CDS, DESCRIPTION, GAV, GROOVY, KOTLIN, JAVAAGENT, MAIN, MANIFEST, MODULE, PREVIEW,
    SOURCES, FILES, REPOS, QUARKUS_CONFIG]

  /** Matching with the trailing space implies matching without it. */
  lemma MatchesWithSpace(d: Directive, line: string)
    requires d.Matches(line, true)
    ensures d.Matches(line, false)
  {
    assert d.Prefix() + "" == d.Prefix();
    StartsWithAppend(d.Prefix(), " ");
    StartsWithTrans(line, d.Prefix(), d.Prefix() + " ");
  }

  /** `//JAVA` is a prefix of the longer names that start with `JAVA`, so `JAVA` matched
      without the space also claims their lines. */
  lemma JavaMatchesLongerNames(line: string, includeSpace: bool)
    requires JAVAC_OPTIONS.Matches(line, includeSpace) || JAVA_OPTIONS.Matches(line, includeSpace)
          || JAVAAGENT.Matches(line, includeSpace)
    ensures JAVA.Matches(line, false)
  {
    var d := if JAVAC_OPTIONS.Matches(line, includeSpace) then JAVAC_OPTIONS
             else if JAVA_OPTIONS.Matches(line, includeSpace) then JAVA_OPTIONS else JAVAAGENT;
    if includeSpace {
      MatchesWithSpace(d, line);
    }
    assert d.Prefix() + "" == d.Prefix();
    assert StartsWith(d.Prefix(), "//JAVA");
    StartsWithTrans(line, "//JAVA", d.Prefix());
  }

  /** The QUARKUS_CONFIG prefix already ends in a space. */
  lemma QuarkusConfigPrefix()
    ensures QUARKUS_CONFIG.Prefix() == "//Q:CONFIG "
    ensures QUARKUS_CONFIG.Matches("//Q:CONFIG quarkus.banner.enabled=false", false)
  {
    QuarkusConfigText();
    PrefixedLine(QUARKUS_CONFIG, "//Q:CONFIG quarkus.banner.enabled=false", "quarkus.banner.enabled=false");
  }

  lemma QuarkusConfigText()
    ensures QUARKUS_CONFIG.Prefix() == "//Q:CONFIG "
  {
  }

  /** A line made of a directive's prefix and more text matches it without the space. */
  lemma PrefixedLine(d: Directive, line: string, rest: string)
    requires line == d.Prefix() + rest
    ensures d.Matches(line, false)
  {
    StartsWithAppend(d.Prefix(), rest);
    assert d.Prefix() + "" == d.Prefix();
  }

  lemma FilesPrefix()
    ensures FILES_PREFIX == "//FILES "
  {
  }

  /** The header's prefix carries the header's own `///`, so it starts with five slashes;
      the header is not part of the catalog. */
  lemma HeaderFacts()
    ensures StartsWith(HEADER.name, HEADER_PREFIX)
    ensures StartsWith(HEADER.Prefix(), "/////usr/bin/env jbang ")
    ensures HEADER !in JBANG_DIRECTIVES
  {
    var rest := "\"$0\" \"$@\" ; exit $?";
    HeaderName(rest);
    HeaderSlashes(rest);
    HeaderNotInCatalog();
  }

  lemma HeaderName(rest: string)
    requires rest == "\"$0\" \"$@\" ; exit $?"
    ensures HEADER.name == HEADER_PREFIX + rest && StartsWith(HEADER.name, HEADER_PREFIX)
  {
    StartsWithAppend(HEADER_PREFIX, rest);
  }

  lemma HeaderSlashes(rest: string)
    requires HEADER.name == HEADER_PREFIX + rest
    ensures StartsWith(HEADER.Prefix(), "/////usr/bin/env jbang ")
  {
    assert "//" + HEADER_PREFIX == "/////usr/bin/env jbang ";
    AppendAssoc("//", HEADER_PREFIX, rest);
    StartsWithAppend("/////usr/bin/env jbang ", rest);
  }

  lemma HeaderNotInCatalog()
    ensures HEADER !in JBANG_DIRECTIVES
  {
    var n := HEADER.name;
    assert |n| > 20;
    forall i | 0 <= i < |JBANG_DIRECTIVES| ensures JBANG_DIRECTIVES[i].name != n {
      assert |JBANG_DIRECTIVES[i].name| <= 20;
    }
  }

  /** The catalog: 21 directives with distinct names, all allowed more than once. */
  lemma CatalogFacts()
    ensures |JBANG_DIRECTIVES| == 21
    ensures JBANG_DIRECTIVES[0] == JAVA
    ensures forall d :: d in JBANG_DIRECTIVES ==> d.multipleAllowed
    ensures forall i, j :: 0 <= i < j < |JBANG_DIRECTIVES| ==> JBANG_DIRECTIVES[i].name != JBANG_DIRECTIVES[j].name
  {
  }

  /** The directives whose completion re-triggers completion for their value. */
  const RETRIGGERING: seq<Directive> := [
    JAVA, JAVAC_OPTIONS, JAVA_OPTIONS, COMPILE_OPTIONS, RUNTIME_OPTIONS, NATIVE_OPTIONS,
    GROOVY, KOTLIN, SOURCES, FILES]

  lemma ReTriggerSet()
    ensures forall d :: d in JBANG_DIRECTIVES ==> (d.reTriggerCompletion <==> d in RETRIGGERING)
    ensures forall d :: d in RETRIGGERING ==> d in JBANG_DIRECTIVES
  {
  }
}
