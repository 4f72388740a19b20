/** Maven coordinates `groupId:artifactId:version:classifier`: parsing a `//DEPS` coordinate,
    printing it back, and the repository paths derived from it. */
module Dependencies {
  import opened Wrappers
  import opened Text

  /** A coordinate whose fields may each be `undefined`. */
  datatype Dependency = Dependency(
    groupId: Option<string>,
    artifactId: Option<string>,
    version: Option<string>,
    classifier: Option<string>)

  /** A template literal prints `undefined` for a missing field. */
  function Show(field: Option<string>): string {
    match field
    case None => "undefined"
    case Some(s) => s
  }

  /** `toString()`: the four fields joined with `:`; when no field holds a `:`, splitting
      the text at `:` gives the four printed fields back. */
  function ToString(d: Dependency): (r: string)
    ensures var fields := [Show(d.groupId), Show(d.artifactId), Show(d.version), Show(d.classifier)];
      (forall k :: 0 <= k < 4 ==> ':' !in fields[k]) ==> Split(r, ':') == fields
  {
    var g, a, v, c := Show(d.groupId), Show(d.artifactId), Show(d.version), Show(d.classifier);
    var r := g + ":" + a + ":" + v + ":" + c;
    assert (forall k :: 0 <= k < 4 ==> ':' !in [g, a, v, c][k]) ==> Split(r, ':') == [g, a, v, c] by {
      if forall k :: 0 <= k < 4 ==> ':' !in [g, a, v, c][k] {
        JoinFour(g, a, v, c);
        SplitJoin([g, a, v, c], ':');
      }
    }
    r
  }

  function Part(parts: seq<string>, k: nat): Option<string> {
    if |parts| > k then Some(parts[k]) else None
  }

  /** `Dependency.getDependency(s)`: fields by position after splitting at `:`;
      undefined when there is no artifact, that is, when `s` holds no `:`. */
  function GetDependency(s: string): (r: Option<Dependency>)
    ensures r.None? <==> ':' !in s
    ensures r.Some? ==> r.value.groupId.Some? && r.value.artifactId.Some?
    ensures r.Some? ==> (r.value.version.Some? <==> |Split(s, ':')| > 2)
    ensures r.Some? ==> (r.value.classifier.Some? <==> |Split(s, ':')| > 3)
  {
    var parts := Split(s, ':');
    SplitSingle(s, ':');
    var groupId := parts[0];
    var artifactId := Part(parts, 1);
    if artifactId.None? then None
    else Some(Dependency(Some(groupId), artifactId, Part(parts, 2), Part(parts, 3)))
  }

  function Coordinate(g: string, a: string, v: string, c: string): string {
    g + ":" + a + ":" + v + ":" + c
  }

  lemma JoinFour(g: string, a: string, v: string, c: string)
    ensures Join([g, a, v, c], ":") == Coordinate(g, a, v, c)
  {
    JoinCons(g, [a, v, c], ":");
    assert [g, a, v, c] == [g] + [a, v, c];
    JoinCons(a, [v, c], ":");
    assert [a, v, c] == [a] + [v, c];
    JoinTwo(v, c, ":");
  }

  /** A string of exactly four parts prints back unchanged. */
  lemma GetDependencyToString(s: string)
    requires |Split(s, ':')| == 4
    ensures GetDependency(s).Some?
    ensures ToString(GetDependency(s).value) == s
  {
    var parts := Split(s, ':');
    assert parts == [parts[0], parts[1], parts[2], parts[3]];
    JoinFour(parts[0], parts[1], parts[2], parts[3]);
    JoinSplit(s, ':');
  }

  /** Printing four `:`-free fields and parsing the result gives the fields back. */
  lemma ToStringGetDependency(g: string, a: string, v: string, c: string)
    requires ':' !in g && ':' !in a && ':' !in v && ':' !in c
    ensures GetDependency(Coordinate(g, a, v, c)) == Some(Dependency(Some(g), Some(a), Some(v), Some(c)))
  {
    JoinFour(g, a, v, c);
    SplitJoin([g, a, v, c], ':');
  }

  /** `g:a` has no version or classifier, and prints them as `undefined`. */
  lemma GetDependencyTwoParts(g: string, a: string)
    requires ':' !in g && ':' !in a
    ensures GetDependency(g + ":" + a) == Some(Dependency(Some(g), Some(a), None, None))
    ensures ToString(GetDependency(g + ":" + a).value) == g + ":" + a + ":undefined:undefined"
  {
    SplitCons(g, ':', a);
    SplitNone(a, ':');
  }

  /** Parts after the fourth are ignored. */
  lemma GetDependencyIgnoresExtra(s: string, extra: string)
    requires |Split(s, ':')| == 4
    ensures GetDependency(s + ":" + extra) == GetDependency(s)
  {
    SplitConcat(s, ':', extra);
  }

  const MAVEN_REPO: string := "https://repo1.maven.org/maven2"

  /** `getSplitGroupId`: every `.` of the group becomes `/`. */
  function SplitGroupId(groupId: string): (r: string)
    ensures |r| == |groupId| && '.' !in r
  {
    var r := ReplaceAll(groupId, '.', '/');
    assert forall i :: 0 <= i < |r| ==> r[i] != '.';
    r
  }

  /** The group's directories are its dotted segments. */
  lemma GroupDirectories(groupId: string)
    requires '/' !in groupId
    ensures Split(SplitGroupId(groupId), '/') == Split(groupId, '.')
  {
    SplitReplaceAll(groupId, '.', '/');
  }

  /** The path of an artifact's POM below a repository root. */
  function PomPath(g: string, a: string, v: string): string {
    SplitGroupId(g) + ("/" + (a + ("/" + (v + ("/" + PomFile(a, v))))))
  }

  function PomFile(a: string, v: string): string {
    a + ("-" + (v + ".pom"))
  }

  const LOCAL_REPO: string := "/.m2/repository/"

  /** `getLocalFile`: the POM below `<home>/.m2/repository`, if group, artifact and version are
      defined. */
  function GetLocalFile(home: string, g: Option<string>, a: Option<string>, v: Option<string>): (r: Option<string>)
    ensures r.Some? <==> g.Some? && a.Some? && v.Some?
    ensures r.Some? ==> RootedAt(r.value, home + LOCAL_REPO, PomPath(g.value, a.value, v.value))
  {
    if g.None? || a.None? || v.None? then None
    else Some(Rooted(home + LOCAL_REPO, PomPath(g.value, a.value, v.value)))
  }

  /** `getRemoteUrl`: the same POM below Maven Central. */
  function GetRemoteUrl(g: Option<string>, a: Option<string>, v: Option<string>): (r: Option<string>)
    ensures r.Some? <==> g.Some? && a.Some? && v.Some?
    ensures r.Some? ==> RootedAt(r.value, MAVEN_REPO + "/", PomPath(g.value, a.value, v.value))
  {
    if g.None? || a.None? || v.None? then None
    else Some(Rooted(MAVEN_REPO + "/", PomPath(g.value, a.value, v.value)))
  }

  /** `s` is exactly `root` followed by `path`. */
  predicate RootedAt(s: string, root: string, path: string) {
    StartsWith(s, root) && EndsWith(s, path) && |s| == |root| + |path|
  }

  function Rooted(root: string, path: string): (r: string)
    ensures RootedAt(r, root, path)
  {
    var r := root + path;
    assert r[..|root|] == root && r[|root|..] == path;
    r
  }

  /** Being rooted determines the string: the local and the remote POM differ only in the root. */
  lemma RootedAtUnique(s: string, root: string, path: string)
    requires RootedAt(s, root, path)
    ensures s == root + path
  {
    assert s == s[..|root|] + s[|root|..];
  }

  /** The path of an artifact's metadata below a repository root. */
  function MetadataPath(g: string, a: string): string {
    SplitGroupId(g) + ("/" + (a + ("/" + METADATA_FILE)))
  }

  const METADATA_FILE: string := "maven-metadata.xml"

  /** `getRemoteMetadata`: the artifact's metadata below Maven Central; needs only group and
      artifact. */
  function GetRemoteMetadata(g: Option<string>, a: Option<string>): (r: Option<string>)
    ensures r.Some? <==> g.Some? && a.Some?
    ensures r.Some? ==> RootedAt(r.value, MAVEN_REPO + "/", MetadataPath(g.value, a.value))
    ensures r.Some? ==> EndsWith(r.value, "/maven-metadata.xml")
  {
    if g.None? || a.None? then None
    else
      var path := MetadataPath(g.value, a.value);
      var r := Rooted(MAVEN_REPO + "/", path);
      var p := SplitGroupId(g.value) + ("/" + a.value);
      assert path == p + "/maven-metadata.xml";
      assert r[|r| - |path|..] == path;
      assert path[|p|..] == "/maven-metadata.xml";
      assert r[|r| - 19..] == path[|path| - 19..];
      Some(r)
  }

  /** The metadata path's directories are the group's dotted segments and the artifact,
      followed by the file `maven-metadata.xml`. */
  lemma MetadataPathSegments(g: string, a: string)
    requires '/' !in g && '/' !in a
    ensures Split(MetadataPath(g, a), '/') == Split(g, '.') + [a, METADATA_FILE]
  {
    var tail := a + ("/" + METADATA_FILE);
    AppendAssoc(SplitGroupId(g), ['/'], tail);
    SplitConcat(SplitGroupId(g), '/', tail);
    GroupDirectories(g);
    MetadataTail(a);
  }

  lemma MetadataTail(a: string)
    requires '/' !in a
    ensures Split(a + ("/" + METADATA_FILE), '/') == [a, METADATA_FILE]
  {
    assert '/' !in METADATA_FILE;
    LastTwoSegments(a, METADATA_FILE);
  }

  lemma LastTwoSegments(a: string, file: string)
    requires '/' !in a && '/' !in file
    ensures Split(a + ("/" + file), '/') == [a, file]
  {
    AppendAssoc(a, ['/'], file);
    SplitCons(a, '/', file);
    SplitNone(file, '/');
  }

  /** The POM path's directories are the group's dotted segments, the artifact, the version,
      and the file `<artifact>-<version>.pom`. */
  lemma PomPathSegments(g: string, a: string, v: string)
    requires '/' !in g && '/' !in a && '/' !in v
    ensures Split(PomPath(g, a, v), '/') == Split(g, '.') + [a, v, PomFile(a, v)]
  {
    var tail := a + ("/" + (v + ("/" + PomFile(a, v))));
    AppendAssoc(SplitGroupId(g), ['/'], tail);
    SplitConcat(SplitGroupId(g), '/', tail);
    GroupDirectories(g);
    TailSegments(a, v);
  }

  lemma TailSegments(a: string, v: string)
    requires '/' !in a && '/' !in v
    ensures Split(a + ("/" + (v + ("/" + PomFile(a, v)))), '/') == [a, v, PomFile(a, v)]
  {
    var file := PomFile(a, v);
    assert '/' !in "-" + (v + ".pom");
    assert '/' !in file;
    AppendAssoc(v, ['/'], file);
    SplitCons(v, '/', file);
    SplitNone(file, '/');
    AppendAssoc(a, ['/'], v + ("/" + file));
    SplitCons(a, '/', v + ("/" + file));
  }
}
