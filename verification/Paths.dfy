/** The two separate path checks of the writer (`unsafe`) and the verifier (`safe_path`). */
module Paths {
  import opened Prelude

  /** Case folding, left to the caller. */
  type Fold = string -> string

  const MAX_PATH := 4096

  predicate Control(c: char) { c < ' ' || c in "\\:\"" }

  predicate Forbidden(part: string, fold: Fold) {
    part == "" || part == "." || part == ".." || fold(part) == ".git" || fold(part) == ".gitmodules"
  }

  /** `unsafe`. */
  predicate Unsafe(path: string, fold: Fold) {
    var parts := Split(path, '/');
    || path == ""
    || path[0] == '/'
    || (exists k :: 0 <= k < |path| && Control(path[k]))
    || (exists k :: 0 <= k < |parts| && Forbidden(parts[k], fold))
    || fold(parts[0]) == ".apm"
  }

  /** The components a relative `PurePosixPath` keeps. */
  function Kept(parts: seq<string>): seq<string> {
    if parts == [] then []
    else if parts[0] == "" || parts[0] == "." then Kept(parts[1..])
    else [parts[0]] + Kept(parts[1..])
  }

  /** `PurePosixPath(name).as_posix()` of a relative name. */
  function AsPosix(name: string): string {
    var kept := Kept(Split(name, '/'));
    if kept == [] then "." else Join(kept, '/')
  }

  /** `safe_path`. */
  predicate SafePath(name: string, fold: Fold) {
    var parts := Split(name, '/');
    && name != "" && |name| <= MAX_PATH
    && name[0] != '/'
    && AsPosix(name) == name
    && !(exists k :: 0 <= k < |name| && Control(name[k]))
    && !(exists k :: 0 <= k < |parts| && Forbidden(parts[k], fold))
    && fold(parts[0]) != ".apm"
  }

  lemma {:induction false} KeepsAll(parts: seq<string>)
    requires forall k :: 0 <= k < |parts| ==> parts[k] != "" && parts[k] != "."
    ensures Kept(parts) == parts
  {
    if parts != [] {
      KeepsAll(parts[1..]);
      assert [parts[0]] + parts[1..] == parts;
    }
  }

  /** The verifier accepts exactly the paths the writer would apply, up to its length limit. */
  lemma SafeIsNotUnsafe(path: string, fold: Fold)
    ensures SafePath(path, fold) <==> !Unsafe(path, fold) && |path| <= 4096
  {
    var parts := Split(path, '/');
    if !Unsafe(path, fold) {
      forall k | 0 <= k < |parts| ensures parts[k] != "" && parts[k] != "." {
        assert !Forbidden(parts[k], fold);
      }
      KeepsAll(parts);
      JoinSplit(path, '/');
    }
  }

  /** A component that may stand in a path: a name of its own, which is not one of Git's. */
  predicate PlainPart(part: string, fold: Fold) {
    part != "" && part != "." && part != ".." && fold(part) !in {".git", ".gitmodules"}
  }

  /**
   * A path is applied exactly when it is plain components joined by slashes, without control
   * characters, backslashes, colons or quotes, and outside `.apm`.
   */
  lemma UnsafeExactly(path: string, fold: Fold)
    ensures !Unsafe(path, fold) <==>
      && (forall part :: part in Split(path, '/') ==> PlainPart(part, fold))
      && fold(Split(path, '/')[0]) != ".apm"
      && (forall k :: 0 <= k < |path| ==> ' ' <= path[k] && path[k] !in {'\\', ':', '"'})
  {
    var parts := Split(path, '/');
    assert forall k :: 0 <= k < |path| ==> (Control(path[k]) <==> path[k] < ' ' || path[k] in {'\\', ':', '"'}) by {
      assert "\\:\"" == ['\\', ':', '"'];
    }
    assert forall k :: 0 <= k < |parts| ==> parts[k] in parts;
    assert path == "" || path[0] == '/' ==> parts[0] == "";
  }
}
