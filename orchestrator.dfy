/** The part of `main` that expands the configured Python versions and
    PyTorch lines into the list of build configs, and the run plan that feeds
    it the resolved versions. Configuration loading, argument parsing and the
    thread pool that runs the jobs are not modelled. */
module Orchestrator {
  import opened Strings
  import opened VersionResolver
  import opened BuildSpec

  /** The values `main` reads from the configuration file. */
  datatype Settings = Settings(dockername: string, imageName: string,
                               pythonVersions: seq<string>, pytorchVersions: seq<string>)

  /** An entry of `pytorch_versions` that names a line: it ends in ".x". */
  predicate IsLinePattern(entry: string)
  {
    EndsWith(entry, ".x")
  }

  /** `entry[:-2]`: the line an entry names, with ".x" removed. */
  function LineOf(entry: string): (line: string)
    requires IsLinePattern(entry)
    ensures line + ".x" == entry
  {
    entry[..|entry| - 2]
  }

  /** An entry that yields builds: it names a line the resolver found. */
  predicate Selects(entry: string, latest: map<string, string>)
  {
    IsLinePattern(entry) && LineOf(entry) in latest
  }

  /** The PyTorch versions the entries select, in entry order. */
  function Resolved(entries: seq<string>, latest: map<string, string>): seq<string>
    decreases |entries|
  {
    if |entries| == 0 then []
    else
      var entry := entries[|entries| - 1];
      Resolved(entries[..|entries| - 1], latest)
        + (if Selects(entry, latest) then [latest[LineOf(entry)]] else [])
  }

  /** The configs for one Python version: for each resolved version, the uv
      variant and then the mount variant. */
  function Row(pythonVersion: string, versions: seq<string>): seq<BuildConfig>
    decreases |versions|
  {
    if |versions| == 0 then []
    else
      var version := versions[|versions| - 1];
      Row(pythonVersion, versions[..|versions| - 1])
        + [BuildConfig(pythonVersion, version, true), BuildConfig(pythonVersion, version, false)]
  }

  /** The whole list, one row per Python version, in configuration order. */
  function Matrix(pythonVersions: seq<string>, entries: seq<string>, latest: map<string, string>): seq<BuildConfig>
    decreases |pythonVersions|
  {
    if |pythonVersions| == 0 then []
    else
      Matrix(pythonVersions[..|pythonVersions| - 1], entries, latest)
        + Row(pythonVersions[|pythonVersions| - 1], Resolved(entries, latest))
  }

  lemma ResolvedStep(entries: seq<string>, j: nat, latest: map<string, string>)
    requires j < |entries|
    ensures Selects(entries[j], latest) ==>
      Resolved(entries[..j + 1], latest) == Resolved(entries[..j], latest) + [latest[LineOf(entries[j])]]
    ensures !Selects(entries[j], latest) ==> Resolved(entries[..j + 1], latest) == Resolved(entries[..j], latest)
  {
    assert entries[..j + 1][..j] == entries[..j];
    assert Resolved(entries[..j], latest) + [] == Resolved(entries[..j], latest);
  }

  lemma RowStep(pythonVersion: string, versions: seq<string>, version: string)
    ensures Row(pythonVersion, versions + [version]) == Row(pythonVersion, versions)
      + [BuildConfig(pythonVersion, version, true), BuildConfig(pythonVersion, version, false)]
  {
    assert (versions + [version])[..|versions|] == versions;
  }

  lemma MatrixStep(pythonVersions: seq<string>, i: nat, entries: seq<string>, latest: map<string, string>)
    requires i < |pythonVersions|
    ensures Matrix(pythonVersions[..i + 1], entries, latest)
      == Matrix(pythonVersions[..i], entries, latest) + Row(pythonVersions[i], Resolved(entries, latest))
  {
    assert pythonVersions[..i + 1][..i] == pythonVersions[..i];
  }

  /** The nested loops of `main` that append to `build_configs`. */
  method ExpandMatrix(pythonVersions: seq<string>, pytorchVersions: seq<string>,
                      latestVersions: map<string, string>) returns (buildConfigs: seq<BuildConfig>)
    ensures buildConfigs == Matrix(pythonVersions, pytorchVersions, latestVersions)
  {
    buildConfigs := [];
    for i := 0 to |pythonVersions|
      invariant buildConfigs == Matrix(pythonVersions[..i], pytorchVersions, latestVersions)
    {
      var pyVersion := pythonVersions[i];
      ghost var rowStart := buildConfigs;
      for j := 0 to |pytorchVersions|
        invariant buildConfigs == rowStart + Row(pyVersion, Resolved(pytorchVersions[..j], latestVersions))
      {
        var torchBaseVersion := pytorchVersions[j];
        ResolvedStep(pytorchVersions, j, latestVersions);
        if !EndsWith(torchBaseVersion, ".x") {
          continue;
        }
        var majorMinor := torchBaseVersion[..|torchBaseVersion| - 2];
        assert majorMinor == LineOf(torchBaseVersion);
        if majorMinor in latestVersions {
          var latestVersion := latestVersions[majorMinor];
          RowStep(pyVersion, Resolved(pytorchVersions[..j], latestVersions), latestVersion);
          ghost var before := buildConfigs;
          ghost var pair := [BuildConfig(pyVersion, latestVersion, true), BuildConfig(pyVersion, latestVersion, false)];
          var flags := [true, false];
          for k := 0 to |flags|
            invariant buildConfigs == before + pair[..k]
          {
            assert pair[..k + 1] == pair[..k] + [BuildConfig(pyVersion, latestVersion, flags[k])];
            buildConfigs := buildConfigs + [BuildConfig(pyVersion, latestVersion, flags[k])];
          }
          assert pair[..2] == pair;
          assert buildConfigs == rowStart + Row(pyVersion, Resolved(pytorchVersions[..j], latestVersions) + [latestVersion]);
        }
      }
      assert pytorchVersions[..|pytorchVersions|] == pytorchVersions;
      MatrixStep(pythonVersions, i, pytorchVersions, latestVersions);
    }
    assert pythonVersions[..|pythonVersions|] == pythonVersions;
  }

  /** The indices of the entries that select a line the resolver found. */
  ghost function SelectingIndices(entries: seq<string>, latest: map<string, string>): set<nat>
  {
    set j: nat | j < |entries| && Selects(entries[j], latest)
  }

  /** One resolved version per selecting entry: the count of versions is the
      count of entries that end in ".x" and name a line in the map. */
  lemma {:induction false} ResolvedCount(entries: seq<string>, latest: map<string, string>)
    ensures |Resolved(entries, latest)| == |SelectingIndices(entries, latest)|
    decreases |entries|
  {
    if |entries| > 0 {
      var n := |entries| - 1;
      var init := entries[..n];
      ResolvedCount(init, latest);
      var before := SelectingIndices(init, latest);
      var after := SelectingIndices(entries, latest);
      var added := if Selects(entries[n], latest) then {n} else {};
      forall j: nat | j < n
        ensures j in after <==> j in before
      {
        assert init[j] == entries[j];
      }
      assert after == before + added by {
        forall j: nat | j in after ensures j in before + added {
          if j == n { assert Selects(entries[n], latest); }
        }
      }
      assert n !in before;
    }
  }

  /** A version is resolved exactly when some selecting entry names its
      line. */
  lemma {:induction false} ResolvedMembership(entries: seq<string>, latest: map<string, string>, version: string)
    ensures version in Resolved(entries, latest) <==>
      exists j | 0 <= j < |entries| :: Selects(entries[j], latest) && latest[LineOf(entries[j])] == version
    decreases |entries|
  {
    if |entries| > 0 {
      var n := |entries| - 1;
      var init := entries[..n];
      ResolvedMembership(init, latest, version);
      if exists j | 0 <= j < n :: Selects(init[j], latest) && latest[LineOf(init[j])] == version {
        var j :| 0 <= j < n && Selects(init[j], latest) && latest[LineOf(init[j])] == version;
        assert entries[j] == init[j];
      }
      if exists j | 0 <= j < |entries| :: Selects(entries[j], latest) && latest[LineOf(entries[j])] == version {
        var j :| 0 <= j < |entries| && Selects(entries[j], latest) && latest[LineOf(entries[j])] == version;
        if j < n {
          assert init[j] == entries[j];
        }
      }
    }
  }

  /** A row holds two configs per resolved version, the uv variant first. */
  lemma {:induction false} RowShape(pythonVersion: string, versions: seq<string>)
    ensures |Row(pythonVersion, versions)| == 2 * |versions|
    ensures forall k | 0 <= k < 2 * |versions| ::
      Row(pythonVersion, versions)[k] == BuildConfig(pythonVersion, versions[k / 2], k % 2 == 0)
    decreases |versions|
  {
    if |versions| > 0 {
      var init := versions[..|versions| - 1];
      RowShape(pythonVersion, init);
      forall k | 0 <= k < 2 * |versions|
        ensures Row(pythonVersion, versions)[k] == BuildConfig(pythonVersion, versions[k / 2], k % 2 == 0)
      {
        if k < 2 * |init| {
          assert versions[k / 2] == init[k / 2];
        }
      }
    }
  }

  /** One position of a row. */
  lemma RowAt(pythonVersion: string, versions: seq<string>, k: nat)
    requires k < 2 * |versions|
    ensures k < |Row(pythonVersion, versions)|
    ensures Row(pythonVersion, versions)[k] == BuildConfig(pythonVersion, versions[k / 2], k % 2 == 0)
  {
    RowShape(pythonVersion, versions);
  }

  /** Position `k` of the second half of a concatenation. */
  lemma ConcatRight(front: seq<BuildConfig>, row: seq<BuildConfig>, k: nat)
    requires k < |row|
    ensures |front| + k < |front + row| && (front + row)[|front| + k] == row[k]
  {
  }

  /** A config is in a row exactly when it has the row's Python version and
      one of the resolved versions, with either flag. */
  lemma {:induction false} RowMembership(pythonVersion: string, versions: seq<string>, config: BuildConfig)
    ensures config in Row(pythonVersion, versions) <==>
      config.pythonVersion == pythonVersion && config.pytorchVersion in versions
    decreases |versions|
  {
    if |versions| > 0 {
      var init := versions[..|versions| - 1];
      RowMembership(pythonVersion, init, config);
      assert versions == init + [versions[|versions| - 1]];
    }
  }

  /** The matrix has two configs per Python version and selecting entry. */
  lemma {:induction false} MatrixLength(pythonVersions: seq<string>, entries: seq<string>, latest: map<string, string>)
    ensures |Matrix(pythonVersions, entries, latest)| == |pythonVersions| * (2 * |Resolved(entries, latest)|)
    decreases |pythonVersions|
  {
    if |pythonVersions| > 0 {
      var init := pythonVersions[..|pythonVersions| - 1];
      MatrixLength(init, entries, latest);
      RowShape(pythonVersions[|pythonVersions| - 1], Resolved(entries, latest));
      BlockBounds(|init|, 0, 2 * |Resolved(entries, latest)|, |init|);
    }
  }

  /** Where offset `k` of block `i` falls among `blocks` blocks of width `w`
      and the block after them. */
  lemma BlockBounds(i: nat, k: nat, w: nat, blocks: nat)
    requires i <= blocks
    ensures i < blocks && k < w ==> i * w + k < blocks * w
    ensures i == blocks ==> i * w + k == blocks * w + k
    ensures blocks * w + w == (blocks + 1) * w
  {
    if i < blocks && k < w {
      assert (i + 1) * w == i * w + w;
      assert (i + 1) * w <= blocks * w;
    }
  }

  /** The list only grows: the configs of the first `j` Python versions are
      a prefix of the whole list. */
  lemma {:induction false} MatrixPrefix(pythonVersions: seq<string>, j: nat, entries: seq<string>, latest: map<string, string>)
    requires j <= |pythonVersions|
    ensures Matrix(pythonVersions[..j], entries, latest) <= Matrix(pythonVersions, entries, latest)
    decreases |pythonVersions|
  {
    if j == |pythonVersions| {
      assert pythonVersions[..j] == pythonVersions;
    } else {
      var init := pythonVersions[..|pythonVersions| - 1];
      MatrixPrefix(init, j, entries, latest);
      assert init[..j] == pythonVersions[..j];
    }
  }

  /** Position `k` of the row of Python version `i` sits right after the
      configs of the versions before it. */
  lemma MatrixRowAt(pythonVersions: seq<string>, entries: seq<string>, latest: map<string, string>, i: nat, k: nat)
    requires i < |pythonVersions| && k < |Row(pythonVersions[i], Resolved(entries, latest))|
    ensures var start := |Matrix(pythonVersions[..i], entries, latest)|;
      && start + k < |Matrix(pythonVersions, entries, latest)|
      && Matrix(pythonVersions, entries, latest)[start + k] == Row(pythonVersions[i], Resolved(entries, latest))[k]
  {
    var front := Matrix(pythonVersions[..i], entries, latest);
    var row := Row(pythonVersions[i], Resolved(entries, latest));
    var whole := Matrix(pythonVersions, entries, latest);
    ConcatRight(front, row, k);
    MatrixStep(pythonVersions, i, entries, latest);
    MatrixPrefix(pythonVersions, i + 1, entries, latest);
    assert front + row == whole[..|front + row|];
    assert whole[|front| + k] == (front + row)[|front| + k];
  }

  /** Nested-loop order: the configs for Python version `i` form the `i`th
      block of `2 * |resolved|`, and inside it each resolved version appears
      twice, uv variant first. */
  lemma MatrixAt(pythonVersions: seq<string>, entries: seq<string>, latest: map<string, string>, i: nat, k: nat)
    requires i < |pythonVersions| && k < 2 * |Resolved(entries, latest)|
    ensures var width := 2 * |Resolved(entries, latest)|;
      && i * width + k < |Matrix(pythonVersions, entries, latest)|
      && Matrix(pythonVersions, entries, latest)[i * width + k]
         == BuildConfig(pythonVersions[i], Resolved(entries, latest)[k / 2], k % 2 == 0)
  {
    MatrixLength(pythonVersions[..i], entries, latest);
    assert |pythonVersions[..i]| == i;
    RowAt(pythonVersions[i], Resolved(entries, latest), k);
    MatrixRowAt(pythonVersions, entries, latest, i, k);
  }

  /** A config is emitted exactly when its Python version is configured and
      its PyTorch version is one that an entry selects, with either flag. */
  lemma {:induction false} MatrixMembership(pythonVersions: seq<string>, entries: seq<string>, latest: map<string, string>, config: BuildConfig)
    ensures config in Matrix(pythonVersions, entries, latest) <==>
      config.pythonVersion in pythonVersions && config.pytorchVersion in Resolved(entries, latest)
    decreases |pythonVersions|
  {
    if |pythonVersions| > 0 {
      var n := |pythonVersions|;
      var init := pythonVersions[..n - 1];
      MatrixMembership(init, entries, latest, config);
      RowMembership(pythonVersions[n - 1], Resolved(entries, latest), config);
      assert pythonVersions == init + [pythonVersions[n - 1]];
    }
  }

  /** With the resolver's result, every emitted PyTorch version is the
      string-greatest surviving release of the line that one of the entries
      names. */
  lemma PlannedVersionsAreLatest(releases: seq<string>, latest: map<string, string>,
                                 pythonVersions: seq<string>, entries: seq<string>, config: BuildConfig)
    requires IsLatestMap(releases, latest)
    requires config in Matrix(pythonVersions, entries, latest)
    ensures config.pythonVersion in pythonVersions
    ensures exists j | 0 <= j < |entries| :: Selects(entries[j], latest) && LineOf(entries[j]) == MajorMinor(config.pytorchVersion)
    ensures config.pytorchVersion in releases && !IsPreRelease(config.pytorchVersion)
    ensures forall version | version in releases && !IsPreRelease(version) && MajorMinor(version) == MajorMinor(config.pytorchVersion) ::
      !Less(config.pytorchVersion, version)
  {
    MatrixMembership(pythonVersions, entries, latest, config);
    ResolvedMembership(entries, latest, config.pytorchVersion);
    var j :| 0 <= j < |entries| && Selects(entries[j], latest) && latest[LineOf(entries[j])] == config.pytorchVersion;
    var line := LineOf(entries[j]);
    assert Survives(releases, latest[line]) && MajorMinor(latest[line]) == line;
    forall version | version in releases && !IsPreRelease(version) && MajorMinor(version) == MajorMinor(config.pytorchVersion)
      ensures !Less(config.pytorchVersion, version)
    {
      assert Survives(releases, version);
    }
  }

  /** Python 3.10 against lines 2.5.x and 2.6.x, with only 2.5 resolved (to
      2.5.3): the 2.6.x line is dropped and two configs remain. */
  lemma MatrixExample()
    ensures Matrix(["3.10"], ["2.5.x", "2.6.x"], map["2.5" := "2.5.3"])
      == [BuildConfig("3.10", "2.5.3", true), BuildConfig("3.10", "2.5.3", false)]
  {
    var entries := ["2.5.x", "2.6.x"];
    var latest := map["2.5" := "2.5.3"];
    assert LineOf("2.5.x") == "2.5";
    assert LineOf("2.6.x") == "2.6";
    assert Resolved(entries[..1], latest) == ["2.5.3"];
    assert Resolved(entries, latest) == ["2.5.3"];
    assert ["3.10"][..0] == [];
  }

  /** `main` up to the dispatch of the jobs: resolve the lines once, then
      expand the matrix with the result. */
  method PlanBuilds(settings: Settings, releases: seq<string>)
    returns (latestVersions: map<string, string>, buildConfigs: seq<BuildConfig>)
    ensures IsLatestMap(releases, latestVersions)
    ensures buildConfigs == Matrix(settings.pythonVersions, settings.pytorchVersions, latestVersions)
  {
    latestVersions := LatestVersions(releases);
    buildConfigs := ExpandMatrix(settings.pythonVersions, settings.pytorchVersions, latestVersions);
  }
}
