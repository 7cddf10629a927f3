/** The part of the `Powerline` state the modelled segments read and write: the segments pushed so
    far, the theme, the shell dialect, and the two git caches that the git segments share so that a
    repository is discovered, and its statuses computed, at most once per prompt. */
module Prompt {
  import opened Wrappers
  import Format
  import opened Themes
  import opened Segments
  import opened GitRepo

  class Powerline {
    var segments: seq<Segment>
    var theme: Theme
    var shell: Format.Shell
    var git: Option<Repository>
    var gitStatuses: Option<seq<Status>>

    /** The status cache only ever holds what the cached repository reported. */
    predicate Valid()
      reads this
    {
      gitStatuses.Some? ==> git.Some? && git.value.statuses == gitStatuses
    }

    /** A prompt with no segment yet and both caches empty. */
    constructor (theme: Theme, shell: Format.Shell)
      ensures Valid()
      ensures this.segments == [] && this.theme == theme && this.shell == shell
      ensures this.git == None && this.gitStatuses == None
    {
      this.segments := [];
      this.theme := theme;
      this.shell := shell;
      this.git := None;
      this.gitStatuses := None;
    }
  }
}
