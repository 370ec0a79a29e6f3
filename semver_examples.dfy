// Worked tags for the version comparator: how particular tags parse and
// which of two tags counts as newer.

module SemverExamples {
  import opened StringUtil
  import opened Semver

  /** A missing patch part defaults to 0. */
  lemma ParseMissingPatch()
    ensures ParseSemver("3.2") == Version(3, 2, 0, "")
  {
    var t := "3.2";
    StripNoSpaceEnds(t);
    assert MajorStart(t) == 0;
    ReadRun(t, 0, "3");
    ReadDotted(t, 1, "2");
    assert DottedPart(t, 3) == (0, 3);
    assert t[3..] == [];
  }

  /** A dot without digits after it stays in the suffix. */
  lemma ParseDotLetter()
    ensures ParseSemver("1.x") == Version(1, 0, 0, ".x")
  {
    var t := "1.x";
    StripNoSpaceEnds(t);
    ReadRun(t, 0, "1");
    assert DigitRun(t, 2) == 0;
    StripNoSpaceEnds(".x");
  }

  /** Only a lower-case `v` is skipped: `V1.0` falls back to zero with the
      tag itself as the suffix. */
  lemma ParseUpperV()
    ensures ParseSemver("V1.0") == Version(0, 0, 0, "V1.0")
  {
    StripNoSpaceEnds("V1.0");
    assert DigitRun("V1.0", 0) == 0;
  }

  /** A tag without leading digits falls back to zero. */
  lemma ParseNoDigits()
    ensures ParseSemver("nightly") == Version(0, 0, 0, "nightly")
  {
    StripNoSpaceEnds("nightly");
    assert DigitRun("nightly", 0) == 0;
  }

  /** A fourth dotted part stays in the suffix. */
  lemma ParseFourParts()
    ensures ParseSemver("1.2.3.4") == Version(1, 2, 3, ".4")
  {
    assert Render(Version(1, 2, 3, ".4")) == "1.2.3.4";
    RenderParses(Version(1, 2, 3, ".4"));
  }

  lemma Parse3_10_0()
    ensures ParseSemver("3.10.0") == Version(3, 10, 0, "")
  {
    assert Render(Version(3, 10, 0, "")) == "3.10.0";
    RenderParses(Version(3, 10, 0, ""));
  }

  lemma Parse3_9_9()
    ensures ParseSemver("3.9.9") == Version(3, 9, 9, "")
  {
    assert Render(Version(3, 9, 9, "")) == "3.9.9";
    RenderParses(Version(3, 9, 9, ""));
  }

  lemma Parse3_2_0()
    ensures ParseSemver("3.2.0") == Version(3, 2, 0, "")
  {
    assert Render(Version(3, 2, 0, "")) == "3.2.0";
    RenderParses(Version(3, 2, 0, ""));
  }

  lemma Parse3_2_0RC1()
    ensures ParseSemver("3.2.0-RC1") == Version(3, 2, 0, "-RC1")
  {
    assert Render(Version(3, 2, 0, "-RC1")) == "3.2.0-RC1";
    RenderParses(Version(3, 2, 0, "-RC1"));
  }

  lemma Parse1_0_0Rc2()
    ensures ParseSemver("1.0.0-rc.2") == Version(1, 0, 0, "-rc.2")
  {
    assert Render(Version(1, 0, 0, "-rc.2")) == "1.0.0-rc.2";
    RenderParses(Version(1, 0, 0, "-rc.2"));
  }

  lemma Parse1_0_0Rc10()
    ensures ParseSemver("1.0.0-rc.10") == Version(1, 0, 0, "-rc.10")
  {
    assert Render(Version(1, 0, 0, "-rc.10")) == "1.0.0-rc.10";
    RenderParses(Version(1, 0, 0, "-rc.10"));
  }

  lemma Parse1_0_0()
    ensures ParseSemver("1.0.0") == Version(1, 0, 0, "")
  {
    assert Render(Version(1, 0, 0, "")) == "1.0.0";
    RenderParses(Version(1, 0, 0, ""));
  }

  /** The optional lower-case `v` is skipped. */
  lemma ParseV1_0()
    ensures ParseSemver("v1.0") == Version(1, 0, 0, "")
  {
    var t := "v1.0";
    StripNoSpaceEnds(t);
    assert MajorStart(t) == 1;
    ReadRun(t, 1, "1");
    ReadDotted(t, 2, "0");
    assert DottedPart(t, 4) == (0, 4);
    assert t[4..] == [];
  }

  /** Parts compare as integers: 3.10.0 is newer than 3.9.9. */
  lemma NumericParts()
    ensures SemverGt("3.10.0", "3.9.9")
  {
    Parse3_10_0();
    Parse3_9_9();
  }

  /** A release is newer than a suffixed build of the same triple. */
  lemma ReleaseBeatsCandidate()
    ensures SemverGt("3.2.0", "3.2.0-RC1")
  {
    Parse3_2_0();
    Parse3_2_0RC1();
  }

  /** ... and not the other way round. */
  lemma CandidateNotNewer()
    ensures !SemverGt("3.2.0-RC1", "3.2.0")
  {
    Parse3_2_0();
    Parse3_2_0RC1();
  }

  /** Suffixes compare by code point, not by the precedence of Semantic
      Versioning 2.0.0: `rc.2` is newer than `rc.10`. */
  lemma SuffixesByCodePoint()
    ensures SemverGt("1.0.0-rc.2", "1.0.0-rc.10")
  {
    Parse1_0_0Rc2();
    Parse1_0_0Rc10();
  }

  /** `v1.0` and `1.0.0` are the same version: neither is newer. */
  lemma SameVersionSpelledTwice()
    ensures !SemverGt("v1.0", "1.0.0") && !SemverGt("1.0.0", "v1.0")
  {
    ParseV1_0();
    Parse1_0_0();
  }
}
