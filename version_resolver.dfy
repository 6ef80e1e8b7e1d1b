/** The reduction step of `get_latest_versions`: from the release identifiers
    published for `torch`, keep the string-greatest non-pre-release version
    of every `major.minor` line. The HTTP fetch is not modelled; the release
    identifiers arrive as a sequence, in the order the index lists them. */
module VersionResolver {
  import opened Strings

  /** The crude pre-release filter: the identifier contains one of the
      substrings "a", "b" or "rc" anywhere; the first two are just the
      letters a and b. */
  predicate IsPreRelease(version: string)
    ensures IsPreRelease(version) <==> 'a' in version || 'b' in version || Contains(version, "rc")
  {
    CharOccurs(version, 'a');
    CharOccurs(version, 'b');
    Contains(version, "a") || Contains(version, "b") || Contains(version, "rc")
  }

  /** `".".join(version.split(".")[:2])`: the first two dot-separated
      components, or the whole string when it has fewer. The line of a
      version is a prefix of it. */
  function MajorMinor(version: string): (line: string)
    ensures line <= version
  {
    var parts := Split(version, '.');
    var k := if |parts| < 2 then |parts| else 2;
    JoinTakeIsPrefix(parts, '.', k);
    JoinSplit(version, '.');
    Join(parts[..k], '.')
  }

  /** The line of a version has at most two components, which are the first
      two components of the version; so taking the line twice changes nothing. */
  lemma MajorMinorComponents(version: string)
    ensures var parts := Split(version, '.');
      Split(MajorMinor(version), '.') == parts[..if |parts| < 2 then |parts| else 2]
    ensures MajorMinor(MajorMinor(version)) == MajorMinor(version)
  {
    var parts := Split(version, '.');
    var k := if |parts| < 2 then |parts| else 2;
    SplitJoin(parts[..k], '.');
    assert parts[..k][..k] == parts[..k];
  }

  /** A version made of two dot-free components and a rest has those two
      components as its line. */
  lemma MajorMinorOf(major: string, minor: string, rest: string)
    requires '.' !in major && '.' !in minor
    ensures MajorMinor(major + "." + minor + "." + rest) == major + "." + minor
  {
    var version := major + "." + minor + "." + rest;
    assert version == major + ['.'] + (minor + ['.'] + rest);
    SplitAtSeparator(major, '.', minor + ['.'] + rest);
    SplitAtSeparator(minor, '.', rest);
    var parts := Split(version, '.');
    assert parts == [major] + ([minor] + Split(rest, '.'));
    assert parts[..2] == [major, minor];
    assert Join([major, minor], '.') == major + ['.'] + Join([minor], '.');
  }

  /** Identifiers without the letters 'a', 'b' and 'r' pass the filter. */
  lemma NotPreRelease(version: string)
    requires 'a' !in version && 'b' !in version && 'r' !in version
    ensures !IsPreRelease(version)
  {
    if Contains(version, "a") { ContainsFirstChar(version, "a"); }
    if Contains(version, "b") { ContainsFirstChar(version, "b"); }
    if Contains(version, "rc") { ContainsFirstChar(version, "rc"); }
  }

  /** A release that takes part in the reduction. */
  ghost predicate Survives(releases: seq<string>, version: string)
  {
    version in releases && !IsPreRelease(version)
  }

  /** What the reduction promises of its result `m`:
      every stored version is a surviving release whose line is its key, and
      every surviving release has its line stored, with a version that is
      not string-less than it. */
  ghost predicate IsLatestMap(releases: seq<string>, m: map<string, string>)
  {
    && (forall line | line in m ::
          Survives(releases, m[line]) && MajorMinor(m[line]) == line)
    && (forall version | Survives(releases, version) ::
          MajorMinor(version) in m && !Less(m[MajorMinor(version)], version))
  }

  /** The loop of `get_latest_versions`, inserting or overwriting one entry
      per surviving release. */
  method LatestVersions(releases: seq<string>) returns (versionMap: map<string, string>)
    ensures IsLatestMap(releases, versionMap)
  {
    versionMap := map[];
    for i := 0 to |releases|
      invariant IsLatestMap(releases[..i], versionMap)
    {
      var version := releases[i];
      assert releases[..i + 1] == releases[..i] + [version];
      if !IsPreRelease(version) {
        var majorMinor := MajorMinor(version);
        if majorMinor !in versionMap {
          versionMap := versionMap[majorMinor := version];
          LessIrreflexive(version);
        } else if Less(versionMap[majorMinor], version) {
          ghost var previous := versionMap[majorMinor];
          versionMap := versionMap[majorMinor := version];
          forall other | Survives(releases[..i + 1], other) && MajorMinor(other) == majorMinor
            ensures !Less(version, other)
          {
            if other == version {
              LessIrreflexive(version);
            } else if Less(version, other) {
              LessTransitive(previous, version, other);
            }
          }
        }
      }
    }
    assert releases[..|releases|] == releases;
  }

  /** Every stored version passed the pre-release filter. */
  lemma StoredVersionsAreReleases(releases: seq<string>, m: map<string, string>, line: string)
    requires IsLatestMap(releases, m) && line in m
    ensures m[line] in releases
    ensures !Contains(m[line], "a") && !Contains(m[line], "b") && !Contains(m[line], "rc")
  {
  }

  /** Every key is a prefix of the version stored under it. */
  lemma KeyIsPrefixOfVersion(releases: seq<string>, m: map<string, string>, line: string)
    requires IsLatestMap(releases, m) && line in m
    ensures line <= m[line]
  {
  }

  /** The keys are exactly the lines of the surviving releases: none invented,
      none lost. */
  lemma KeysAreLines(releases: seq<string>, m: map<string, string>)
    requires IsLatestMap(releases, m)
    ensures m.Keys == set version | version in releases && !IsPreRelease(version) :: MajorMinor(version)
  {
    var lines := set version | version in releases && !IsPreRelease(version) :: MajorMinor(version);
    forall line | line in m ensures line in lines {
      assert Survives(releases, m[line]);
    }
  }

  /** The stored version is the string-maximum of its line: it belongs to the
      line and no surviving release of the line is greater. */
  lemma StoredIsLineMaximum(releases: seq<string>, m: map<string, string>, line: string, version: string)
    requires IsLatestMap(releases, m)
    requires Survives(releases, version) && MajorMinor(version) == line
    ensures line in m && MajorMinor(m[line]) == line
    ensures version == m[line] || Less(version, m[line])
  {
    LessTotal(version, m[line]);
  }

  /** The result depends only on the set of releases, not on the order in
      which the index lists them: two maps meeting the promise for the same
      releases are equal. */
  lemma {:induction false} LatestMapUnique(r1: seq<string>, r2: seq<string>, m1: map<string, string>, m2: map<string, string>)
    requires forall version :: version in r1 <==> version in r2
    requires IsLatestMap(r1, m1) && IsLatestMap(r2, m2)
    ensures m1 == m2
  {
    forall line | line in m1 ensures line in m2 && m1[line] == m2[line] {
      var v1 := m1[line];
      assert Survives(r2, v1);
      var v2 := m2[line];
      assert Survives(r1, v2);
      LessTotal(v1, v2);
    }
    forall line | line in m2 ensures line in m1 {
      assert Survives(r1, m2[line]);
    }
  }

  /** Of two surviving releases on one line, the string-greater one is
      stored, whatever their numeric order. */
  lemma SameLineGreaterWins(lesser: string, greater: string, m: map<string, string>)
    requires !IsPreRelease(lesser) && !IsPreRelease(greater)
    requires MajorMinor(lesser) == MajorMinor(greater) && Less(lesser, greater)
    requires IsLatestMap([lesser, greater], m)
    ensures m == map[MajorMinor(greater) := greater]
  {
    var releases := [lesser, greater];
    assert Survives(releases, lesser) && Survives(releases, greater);
    LessAsymmetric(lesser, greater);
    forall line | line in m ensures line == MajorMinor(greater) {
      assert Survives(releases, m[line]);
    }
  }

  /** String order, not numeric order, picks the winner: "1.9.9" beats
      "1.9.10". */
  lemma StringOrderExample(m: map<string, string>)
    requires IsLatestMap(["1.9.10", "1.9.9"], m)
    ensures m == map["1.9" := "1.9.9"]
  {
    NineNineLine();
    NineTenLine();
    SameLineGreaterWins("1.9.10", "1.9.9", m);
  }

  /** A surviving release that is alone on its line is the one stored. */
  lemma OnlySurvivorStored(releases: seq<string>, m: map<string, string>, version: string)
    requires IsLatestMap(releases, m) && Survives(releases, version)
    requires forall other | Survives(releases, other) && MajorMinor(other) == MajorMinor(version) :: other == version
    ensures MajorMinor(version) in m && m[MajorMinor(version)] == version
  {
    assert Survives(releases, m[MajorMinor(version)]);
  }

  /** Surviving releases on different lines are both kept, and a
      pre-release is dropped. */
  lemma DistinctLinesKept(first: string, second: string, pre: string, m: map<string, string>)
    requires !IsPreRelease(first) && !IsPreRelease(second) && IsPreRelease(pre)
    requires MajorMinor(first) != MajorMinor(second)
    requires IsLatestMap([first, second, pre], m)
    ensures m == map[MajorMinor(first) := first, MajorMinor(second) := second]
  {
    var releases := [first, second, pre];
    var l1, l2 := MajorMinor(first), MajorMinor(second);
    PreReleaseDropped(first, second, pre);
    OnlySurvivorStored(releases, m, first);
    OnlySurvivorStored(releases, m, second);
    forall line | line in m
      ensures line == l1 || line == l2
    {
      assert Survives(releases, m[line]);
    }
    assert m.Keys == {l1, l2};
  }

  /** Of two releases and a pre-release, only the two releases survive. */
  lemma PreReleaseDropped(first: string, second: string, pre: string)
    requires !IsPreRelease(first) && !IsPreRelease(second) && IsPreRelease(pre)
    ensures Survives([first, second, pre], first) && Survives([first, second, pre], second)
    ensures forall other | Survives([first, second, pre], other) :: other == first || other == second
  {
  }

  /** A plain `major.minor.patch` release: it passes the filter and its line
      is `major.minor`. */
  lemma PlainRelease(version: string, major: string, minor: string, patch: string)
    requires version == major + "." + minor + "." + patch
    requires '.' !in major && '.' !in minor
    requires 'a' !in version && 'b' !in version && 'r' !in version
    ensures MajorMinor(version) == major + "." + minor
    ensures !IsPreRelease(version)
  {
    MajorMinorOf(major, minor, patch);
    NotPreRelease(version);
  }

  /** "1.9.0" is a release on line "1.9". */
  lemma NineZeroLine()
    ensures MajorMinor("1.9.0") == "1.9" && !IsPreRelease("1.9.0")
  {
    assert "1" + "." + "9" + "." + "0" == "1.9.0";
    PlainRelease("1.9.0", "1", "9", "0");
  }

  /** "1.10.0" is a release on line "1.10", not "1.1". */
  lemma TenZeroLine()
    ensures MajorMinor("1.10.0") == "1.10" && !IsPreRelease("1.10.0")
  {
    assert "1" + "." + "10" + "." + "0" == "1.10.0";
    PlainRelease("1.10.0", "1", "10", "0");
  }

  /** "1.9.9" is a release on line "1.9". */
  lemma NineNineLine()
    ensures MajorMinor("1.9.9") == "1.9" && !IsPreRelease("1.9.9")
  {
    assert "1" + "." + "9" + "." + "9" == "1.9.9";
    PlainRelease("1.9.9", "1", "9", "9");
  }

  /** "1.9.10" is a release on line "1.9", and sorts before "1.9.9". */
  lemma NineTenLine()
    ensures MajorMinor("1.9.10") == "1.9" && !IsPreRelease("1.9.10")
    ensures Less("1.9.10", "1.9.9")
  {
    assert "1" + "." + "9" + "." + "10" == "1.9.10";
    PlainRelease("1.9.10", "1", "9", "10");
  }

  /** "2.0.0rc1" is a release candidate. */
  lemma CandidateIsPreRelease()
    ensures IsPreRelease("2.0.0rc1")
  {
    assert OccursAt("2.0.0rc1", "rc", 5);
  }

  /** A release candidate is dropped, and lines "1.9" and "1.10" stay apart. */
  lemma SeparateLinesExample(m: map<string, string>)
    requires IsLatestMap(["1.9.0", "1.10.0", "2.0.0rc1"], m)
    ensures m == map["1.9" := "1.9.0", "1.10" := "1.10.0"]
  {
    NineZeroLine();
    TenZeroLine();
    CandidateIsPreRelease();
    DistinctLinesKept("1.9.0", "1.10.0", "2.0.0rc1", m);
  }
}
