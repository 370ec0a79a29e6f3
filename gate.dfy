/**
  The rule that decides whether a repository's latest release is announced:
  a release with a tag is new when nothing was recorded for the repository,
  or when its tag is newer than the recorded one. The recorded state maps a
  repository to the last tag announced for it.
 */
module Gate {
  import opened Semver

  /** `is_new`: nothing recorded yet, or a newer tag. */
  predicate IsNew(state: map<string, string>, repo: string, tag: string) {
    repo !in state || SemverGt(tag, state[repo])
  }

  /** A release without a tag is skipped; otherwise it is announced when new. */
  predicate ShouldAnnounce(state: map<string, string>, repo: string, tag: string) {
    tag != [] && IsNew(state, repo, tag)
  }

  /** Recording the announced tag. */
  function Record(state: map<string, string>, repo: string, tag: string): (r: map<string, string>)
    ensures r.Keys == state.Keys + {repo}
    ensures repo in r && r[repo] == tag
    ensures forall other | other in state && other != repo :: other in r && r[other] == state[other]
  {
    state[repo := tag]
  }

  /** The first release seen for a repository is announced if it has a tag. */
  lemma FirstReleaseAnnounced(state: map<string, string>, repo: string, tag: string)
    requires repo !in state && tag != []
    ensures ShouldAnnounce(state, repo, tag)
  {
  }

  /** Once a tag is recorded, neither it nor any tag parsing to the same
      version is announced again. */
  lemma NoRepeat(state: map<string, string>, repo: string, tag: string, again: string)
    requires ParseSemver(again) == ParseSemver(tag)
    ensures !ShouldAnnounce(Record(state, repo, tag), repo, again)
  {
    SemverGtIrreflexive(again, tag);
  }

  /** Once a tag is recorded, no older tag is announced. */
  lemma NoRollback(state: map<string, string>, repo: string, tag: string, older: string)
    requires SemverGt(tag, older)
    ensures !ShouldAnnounce(Record(state, repo, tag), repo, older)
  {
    SemverGtAsymmetric(tag, older);
  }

  /** Announcements for one repository climb: each announced tag is newer
      than every tag announced before it, not only the last one. */
  lemma AnnouncementsClimb(state: map<string, string>, repo: string, first: string, second: string, third: string)
    requires ShouldAnnounce(Record(state, repo, first), repo, second)
    requires ShouldAnnounce(Record(Record(state, repo, first), repo, second), repo, third)
    ensures SemverGt(third, first)
  {
    SemverGtTransitive(third, second, first);
  }

  /** Two distinct tags of one repository with distinct versions: exactly
      one of them is announced after the other is recorded. */
  lemma OneWay(state: map<string, string>, repo: string, a: string, b: string)
    requires a != [] && b != [] && ParseSemver(a) != ParseSemver(b)
    ensures ShouldAnnounce(Record(state, repo, a), repo, b) != ShouldAnnounce(Record(state, repo, b), repo, a)
  {
    SemverGtTotal(a, b);
    SemverGtAsymmetric(a, b);
  }
}
