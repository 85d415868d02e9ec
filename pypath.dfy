/** The POSIX `os.path` functions the directory scan calls: `join` and `splitext`. */
module PyPath {
  import opened Unicode
  import opened PyStr

  const Slash: CodePoint := 0x2F
  const Dot: CodePoint := 0x2E

  /** `os.path.join(a, b)`: an absolute `b` replaces `a`; otherwise one slash separates them. */
  function Join(a: Text, b: Text): (r: Text)
    ensures EndsWith(r, b)
  {
    if |b| > 0 && b[0] == Slash then b
    else if a == [] || a[|a| - 1] == Slash then a + b
    else a + [Slash] + b
  }

  /**
   * `os.path.splitext(p)[0]`: `p` without its last extension. A dot only
   * starts an extension when it lies in the final path component and is
   * preceded there by something other than dots, so ".pdf" and "..pdf" have
   * no extension.
   */
  function SplitextRoot(p: Text): (r: Text)
    ensures |r| <= |p| && r == p[..|r|]
  {
    var sepIndex := LastIndexOf(p, Slash);
    var dotIndex := LastIndexOf(p, Dot);
    if dotIndex > sepIndex && exists j :: sepIndex < j < dotIndex && p[j] != Dot then p[..dotIndex]
    else p
  }

  /**
   * A suffix without a slash ends the joined path exactly when it ends the
   * file name: testing the path for ".pdf", as the directory scan does, is
   * testing the name.
   */
  lemma JoinEndsWith(dir: Text, name: Text, suffix: Text)
    requires |suffix| > 0 && Slash !in suffix
    ensures EndsWith(Join(dir, name), suffix) <==> EndsWith(name, suffix)
  {
    var p := Join(dir, name);
    if !(|name| > 0 && name[0] == Slash) && dir != [] && |name| < |suffix| && |suffix| <= |p| {
      var slashAt := |p| - |name| - 1;
      assert p[slashAt] == Slash;
      assert p[|p| - |suffix|..][slashAt - (|p| - |suffix|)] == Slash;
    }
  }

  /**
   * The root of a slash-free name ending in `ext` (a dot and no further dot
   * or slash) is the name without `ext`, unless only dots precede it, in
   * which case Python sees no extension and the root is the whole name.
   */
  lemma RootOfExtension(name: Text, ext: Text)
    requires Slash !in name
    requires |ext| >= 1 && ext[0] == Dot && Dot !in ext[1..] && Slash !in ext
    requires EndsWith(name, ext)
    ensures (exists j :: 0 <= j < |name| - |ext| && name[j] != Dot) ==> SplitextRoot(name) + ext == name
    ensures (forall j :: 0 <= j < |name| - |ext| ==> name[j] == Dot) ==> SplitextRoot(name) == name
  {
    var dotIndex := |name| - |ext|;
    assert name[dotIndex] == Dot;
    forall j | dotIndex < j < |name|
      ensures name[j] != Dot
    {
      assert name[j] == ext[1..][j - dotIndex - 1];
    }
    assert LastIndexOf(name, Dot) == dotIndex;
    assert LastIndexOf(name, Slash) == -1;
    assert name[..dotIndex] + ext == name;
  }
}
