/** `BuildConfig`, its derived `tag`, and the image reference
    `dockername/image_name:tag` that `build_and_push` builds and pushes. */
module BuildSpec {
  import opened Strings

  /** One image of the build matrix: a Python version, a resolved PyTorch
      version, and whether the uv installer is copied into the image. */
  datatype BuildConfig = BuildConfig(pythonVersion: string, pytorchVersion: string, useUv: bool)
  {
    /** `py{python_version}-torch{pytorch_version}` followed by `-uv` when
        the uv installer is copied into the image. */
    function Tag(): (tag: string)
      ensures "py" + pythonVersion + "-torch" + pytorchVersion <= tag
      ensures useUv ==> EndsWith(tag, "-uv")
      ensures |tag| == 8 + |pythonVersion| + |pytorchVersion| + (if useUv then 3 else 0)
    {
      "py" + pythonVersion + "-torch" + pytorchVersion + UvSuffix(useUv)
    }
  }

  /** The tag suffix that marks an image with the uv installer copied in. */
  function UvSuffix(useUv: bool): string
  {
    if useUv then "-uv" else ""
  }

  /** The image reference `dockername/image_name:tag`. */
  function FullTag(dockername: string, imageName: string, config: BuildConfig): (ref: string)
    ensures dockername + "/" + imageName + ":" <= ref
    ensures EndsWith(ref, config.Tag())
    ensures |ref| == |dockername| + |imageName| + 2 + |config.Tag()|
  {
    var tag := config.Tag();
    dockername + "/" + imageName + ":" + tag
  }

  /** Two configs that differ only in the installer flag have different tags. */
  lemma TagDistinguishesInstaller(config: BuildConfig)
    ensures config.Tag() != config.(useUv := !config.useUv).Tag()
  {
  }

  /** A string with no hyphen. */
  predicate HyphenFree(s: string)
  {
    '-' !in s
  }

  /** The hyphen after `x` sits at index `|x|`. */
  lemma HyphenAt(x: string, y: string)
    ensures |x| < |x + "-" + y| && (x + "-" + y)[|x|] == '-'
    ensures x + "-" + y == x + ['-'] + y
    ensures y == "uv" ==> x + UvSuffix(true) == x + "-" + y
  {
  }

  /** The tag cut into the Python part, the first hyphen, and the rest. */
  lemma TagParts(c: BuildConfig)
    ensures c.Tag() == ("py" + c.pythonVersion) + "-" + ("torch" + c.pytorchVersion + UvSuffix(c.useUv))
    ensures c.pythonVersion == ("py" + c.pythonVersion)[2..]
    ensures c.pytorchVersion + UvSuffix(c.useUv) == ("torch" + c.pytorchVersion + UvSuffix(c.useUv))[5..]
  {
  }

  /** Cutting at the first hyphen: a hyphen-free head followed by a hyphen is
      determined by the string it starts. */
  lemma {:induction false} SplitAtFirstHyphen(x1: string, y1: string, x2: string, y2: string)
    requires HyphenFree(x1) && HyphenFree(x2)
    requires x1 + "-" + y1 == x2 + "-" + y2
    ensures x1 == x2 && y1 == y2
  {
    var s := x1 + "-" + y1;
    if |x1| < |x2| {
      HyphenAt(x1, y1);
      assert false;
    } else if |x2| < |x1| {
      HyphenAt(x2, y2);
      assert false;
    }
    assert x1 == s[..|x1|];
    assert x2 == (x2 + "-" + y2)[..|x2|];
    assert y1 == s[|x1| + 1..];
    assert y2 == (x2 + "-" + y2)[|x2| + 1..];
  }

  /** A hyphen-free version followed by the installer suffix determines
      both the version and the flag. */
  lemma SuffixDetermined(t1: string, uv1: bool, t2: string, uv2: bool)
    requires HyphenFree(t1) && HyphenFree(t2)
    requires t1 + UvSuffix(uv1) == t2 + UvSuffix(uv2)
    ensures t1 == t2 && uv1 == uv2
  {
    if uv1 && !uv2 {
      HyphenAt(t1, "uv");
      assert false;
    } else if uv2 && !uv1 {
      HyphenAt(t2, "uv");
      assert false;
    } else {
      assert t1 == (t1 + UvSuffix(uv1))[..|t1|];
      assert t2 == (t2 + UvSuffix(uv2))[..|t2|];
    }
  }

  /** When neither version contains a hyphen, the tag determines the whole
      config: distinct configs of a run get distinct tags. */
  lemma TagInjective(c1: BuildConfig, c2: BuildConfig)
    requires HyphenFree(c1.pythonVersion) && HyphenFree(c1.pytorchVersion)
    requires HyphenFree(c2.pythonVersion) && HyphenFree(c2.pytorchVersion)
    requires c1.Tag() == c2.Tag()
    ensures c1 == c2
  {
    TagParts(c1);
    TagParts(c2);
    var r1 := "torch" + c1.pytorchVersion + UvSuffix(c1.useUv);
    var r2 := "torch" + c2.pytorchVersion + UvSuffix(c2.useUv);
    SplitAtFirstHyphen("py" + c1.pythonVersion, r1, "py" + c2.pythonVersion, r2);
    SuffixDetermined(c1.pytorchVersion, c1.useUv, c2.pytorchVersion, c2.useUv);
  }

  /** With hyphens allowed, two configs can share a tag. */
  lemma TagCollision()
    ensures BuildConfig("3.11", "2.5.0-uv", false).Tag() == BuildConfig("3.11", "2.5.0", true).Tag()
  {
  }

  /** Within one namespace and image name, the reference determines the tag. */
  lemma FullTagDeterminesTag(dockername: string, imageName: string, c1: BuildConfig, c2: BuildConfig)
    requires FullTag(dockername, imageName, c1) == FullTag(dockername, imageName, c2)
    ensures c1.Tag() == c2.Tag()
  {
    var prefix := dockername + "/" + imageName + ":";
    assert c1.Tag() == FullTag(dockername, imageName, c1)[|prefix|..];
    assert c2.Tag() == FullTag(dockername, imageName, c2)[|prefix|..];
  }

  /** Distinct hyphen-free configs of one run are pushed to distinct
      references. */
  lemma DistinctConfigsDistinctRefs(dockername: string, imageName: string, c1: BuildConfig, c2: BuildConfig)
    requires HyphenFree(c1.pythonVersion) && HyphenFree(c1.pytorchVersion)
    requires HyphenFree(c2.pythonVersion) && HyphenFree(c2.pytorchVersion)
    requires c1 != c2
    ensures FullTag(dockername, imageName, c1) != FullTag(dockername, imageName, c2)
  {
    if FullTag(dockername, imageName, c1) == FullTag(dockername, imageName, c2) {
      FullTagDeterminesTag(dockername, imageName, c1, c2);
      TagInjective(c1, c2);
    }
  }

  /** The dry-run reference for Python 3.11, PyTorch 2.5.0 with uv, pushed to
      acme/ml-base. */
  lemma FullTagExample()
    ensures FullTag("acme", "ml-base", BuildConfig("3.11", "2.5.0", true)) == "acme/ml-base:py3.11-torch2.5.0-uv"
  {
  }
}
