/**
 * The two POSIX path operations the scripts use: `os.path.basename` (the
 * fallback title) and `os.path.join` (the path of a folder entry).
 */
module Paths {
  import opened Strings

  /** `os.path.basename(p)`: everything after the last `/`. */
  function Basename(p: string): (b: string)
    ensures '/' !in b
    ensures EndsWith(p, b)
    ensures |b| < |p| ==> p[|p| - |b| - 1] == '/'
    decreases |p|
  {
    if p == [] || p[|p| - 1] == '/' then []
    else
      var b := Basename(p[..|p| - 1]) + [p[|p| - 1]];
      assert p[..|p| - 1][|p| - |b|..] + [p[|p| - 1]] == p[|p| - |b|..];
      b
  }

  /** `os.path.join(a, b)` for two components. */
  function JoinPath(a: string, b: string): string {
    if b != [] && b[0] == '/' then b
    else if a == [] || a[|a| - 1] == '/' then a + b
    else a + "/" + b
  }

  lemma {:induction false} BasenameAfterSlash(d: string, b: string)
    requires d == [] || d[|d| - 1] == '/'
    requires '/' !in b
    ensures Basename(d + b) == b
    decreases |b|
  {
    if b == [] {
      assert d + b == d;
    } else {
      var s := d + b;
      var init := b[..|b| - 1];
      assert Basename(s) == init + [b[|b| - 1]] by {
        assert s[..|s| - 1] == d + init && s[|s| - 1] == b[|b| - 1];
        BasenameAfterSlash(d, init);
      }
      assert b == init + [b[|b| - 1]];
    }
  }

  /** A folder entry joined onto its folder has the entry as its base name. */
  lemma BasenameOfJoin(folder: string, name: string)
    requires '/' !in name
    ensures Basename(JoinPath(folder, name)) == name
  {
    if folder == [] || folder[|folder| - 1] == '/' {
      BasenameAfterSlash(folder, name);
    } else {
      BasenameAfterSlash(folder + "/", name);
      assert folder + "/" + name == (folder + "/") + name;
    }
  }
}
