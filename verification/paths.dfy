/** The two path helpers the loader relies on, with POSIX semantics
    (`posixpath.isabs` and `posixpath.dirname`). */
module Paths {
  import Text

  /** `posixpath.isabs`: the path starts with a slash. */
  predicate IsAbs(p: string) {
    |p| > 0 && p[0] == '/'
  }

  predicate AllSlashes(s: string) {
    forall k :: 0 <= k < |s| ==> s[k] == '/'
  }

  /** One past the index of the last slash, or 0 when there is none
      (`p.rfind('/') + 1`). */
  function AfterLastSlash(p: string): (i: nat)
    ensures i <= |p|
    ensures i > 0 ==> p[i - 1] == '/'
    ensures forall k :: i <= k < |p| ==> p[k] != '/'
    decreases |p|
  {
    if |p| == 0 then 0
    else if p[|p| - 1] == '/' then |p|
    else AfterLastSlash(p[..|p| - 1])
  }

  /** `posixpath.dirname`: everything up to the last slash, with trailing
      slashes removed unless the head consists of slashes only. The result is
      a prefix of `p` that stops inside the slash run before the last
      component, and it is non-empty whenever that head has a non-slash. */
  function DirName(p: string): (d: string)
    ensures |d| <= AfterLastSlash(p) && d == p[..|d|]
    ensures forall k :: |d| <= k < AfterLastSlash(p) ==> p[k] == '/'
    ensures !AllSlashes(p[..AfterLastSlash(p)]) ==> |d| > 0 && d[|d| - 1] != '/'
    ensures AllSlashes(p[..AfterLastSlash(p)]) ==> d == p[..AfterLastSlash(p)]
  {
    var head := p[..AfterLastSlash(p)];
    if |head| > 0 && !AllSlashes(head) then Text.TrimRight(head, '/') else head
  }

  /** The directory of an absolute path is absolute, so a working directory
      defaulted from an absolute jar path always passes the server's check. */
  lemma DirNameOfAbsIsAbs(p: string)
    requires IsAbs(p)
    ensures IsAbs(DirName(p))
  {
    var i := AfterLastSlash(p);
    assert p[0] == '/';
    var head := p[..i];
    if !AllSlashes(head) {
      var d := DirName(p);
      assert d == head[..|d|];
    }
  }
}
