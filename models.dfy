/**
  The records the scripts pass around.
 */
module Models {
  import opened Wrappers

  /** A GitHub release: its tag, display name, page URL, Markdown notes,
      whether it is a prerelease, and when it was published, if known. */
  datatype Release = Release(
    tagName: string,
    name: string,
    htmlUrl: string,
    body: string,
    prerelease: bool,
    publishedAt: Option<string>)
}
