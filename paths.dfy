/**
 * The string operations the media manager relies on: `str.lower`,
 * `str.endswith`, and the POSIX flavour of `os.path.join` and
 * `os.path.splitext`.
 */
module Paths {

  /** Lower-casing of one character; only the ASCII letters change. */
  function LowerChar(c: char): char
  {
    if 'A' <= c <= 'Z' then (c as int + 32) as char else c
  }

  /** `s.lower()`, character by character. */
  function Lower(s: string): string
  {
    seq(|s|, i requires 0 <= i < |s| => LowerChar(s[i]))
  }

  lemma LowerAppend(a: string, b: string)
    ensures Lower(a + b) == Lower(a) + Lower(b)
  {
  }

  /** `s.endswith(suffix)`. */
  predicate EndsWith(s: string, suffix: string)
  {
    |suffix| <= |s| && s[|s| - |suffix|..] == suffix
  }

  /** `s.rfind(c)`: the index of the last occurrence of `c`, or -1. */
  function LastIndex(s: string, c: char): int
    decreases |s|
  {
    if s == [] then -1
    else if s[|s| - 1] == c then |s| - 1
    else LastIndex(s[..|s| - 1], c)
  }

  /** `rfind` finds an occurrence of `c`, and no occurrence lies after it. */
  lemma {:induction false} LastIndexFinds(s: string, c: char)
    ensures -1 <= LastIndex(s, c) < |s|
    ensures LastIndex(s, c) >= 0 ==> s[LastIndex(s, c)] == c
    ensures forall k :: LastIndex(s, c) < k < |s| ==> s[k] != c
    decreases |s|
  {
    if s != [] && s[|s| - 1] != c {
      LastIndexFinds(s[..|s| - 1], c);
    }
  }

  /** `LastIndex` is characterised by its contract: the position of a `c` with none after it. */
  lemma LastIndexIs(s: string, c: char, r: int)
    requires -1 <= r < |s|
    requires r >= 0 ==> s[r] == c
    requires forall k :: r < k < |s| ==> s[k] != c
    ensures LastIndex(s, c) == r
  {
    LastIndexFinds(s, c);
  }

  /** The last occurrence in `a + b` lies in `b` when `b` has one, else in `a`. */
  lemma {:induction false} LastIndexAppend(a: string, b: string, c: char)
    ensures LastIndex(a + b, c) == if LastIndex(b, c) >= 0 then |a| + LastIndex(b, c) else LastIndex(a, c)
    decreases |b|
  {
    LastIndexFinds(b, c);
    if b == [] {
      assert a + b == a;
    } else if b[|b| - 1] != c {
      assert (a + b)[..|a + b| - 1] == a + b[..|b| - 1];
      LastIndexAppend(a, b[..|b| - 1], c);
    }
  }

  /** `os.path.join(root, name)` for two components (posixpath). */
  function Join(root: string, name: string): (p: string)
  {
    if |name| > 0 && name[0] == '/' then name
    else if root == [] || root[|root| - 1] == '/' then root + name
    else root + "/" + name
  }

  /** Some character of `s[lo..hi]` is not a '.'. */
  predicate NonDotBetween(s: string, lo: int, hi: int)
    requires 0 <= lo && hi <= |s|
  {
    exists k | lo <= k < hi :: s[k] != '.'
  }

  /**
   * `os.path.splitext(p)` (posixpath): the extension starts at the last '.'
   * provided that '.' lies after the last '/' and some character other than
   * '.' precedes it within the last component; otherwise it is empty.
   */
  function SplitExt(p: string): (string, string)
  {
    LastIndexFinds(p, '/');
    LastIndexFinds(p, '.');
    var sep := LastIndex(p, '/');
    var dot := LastIndex(p, '.');
    if dot > sep && NonDotBetween(p, sep + 1, dot) then
      (p[..dot], p[dot..])
    else
      (p, [])
  }

  /** `os.path.splitext(p)[1]`. */
  function Extension(p: string): string
  {
    SplitExt(p).1
  }

  /**
   * `splitext` splits the path into root and extension; the extension is
   * empty or a '.' followed by characters that are neither '.' nor '/'.
   */
  lemma SplitExtParts(p: string)
    ensures SplitExt(p).0 + SplitExt(p).1 == p
    ensures EndsWith(p, Extension(p))
    ensures var e := Extension(p); e == [] || (e[0] == '.' && '.' !in e[1..] && '/' !in e)
  {
    LastIndexFinds(p, '/');
    LastIndexFinds(p, '.');
    var e := Extension(p);
    assert p[|p| - |e|..] == e;
  }

  /**
   * The rule of `splitext` for a name without '/': a final '.' with a
   * character other than '.' somewhere before it starts the extension.
   */
  lemma ExtensionOfName(base: string, ext: string)
    requires '/' !in base && '/' !in ext
    requires |ext| > 0 && ext[0] == '.' && '.' !in ext[1..]
    requires exists k | 0 <= k < |base| :: base[k] != '.'
    ensures Extension(base + ext) == ext
  {
    var p := base + ext;
    forall k | 0 <= k < |p|
      ensures p[k] != '/'
    {
      if k < |base| {
        assert p[k] == base[k];
      } else {
        assert p[k] == ext[k - |base|];
      }
    }
    LastIndexIs(p, '/', -1);
    forall k | |base| < k < |p|
      ensures p[k] != '.'
    {
      assert p[k] == ext[1..][k - |base| - 1];
    }
    LastIndexIs(p, '.', |base|);
    var k :| 0 <= k < |base| && base[k] != '.';
    assert p[k] == base[k];
    assert p[|base|..] == ext;
  }

  /**
   * The other half of the rule: when only dots precede the last '.' of a
   * name (a dot file such as `.bashrc` or `..jpg`), or it has no '.', the
   * extension is empty.
   */
  lemma NoExtensionWhenOnlyDotsBefore(name: string)
    requires '/' !in name
    requires forall k :: 0 <= k < |name| && k < LastIndex(name, '.') ==> name[k] == '.'
    ensures Extension(name) == []
  {
    LastIndexIs(name, '/', -1);
    LastIndexFinds(name, '.');
  }

  /** Lower-casing never creates or removes a '.' or a '/'. */
  lemma LastIndexLower(s: string, c: char)
    requires c == '.' || c == '/'
    ensures LastIndex(Lower(s), c) == LastIndex(s, c)
  {
    LastIndexFinds(s, c);
    LastIndexIs(Lower(s), c, LastIndex(s, c));
  }

  /** The extension of a lower-cased path is the lower-cased extension. */
  lemma ExtensionLower(p: string)
    ensures Extension(Lower(p)) == Lower(Extension(p))
  {
    var l := Lower(p);
    LastIndexLower(p, '/');
    LastIndexLower(p, '.');
    LastIndexFinds(p, '/');
    LastIndexFinds(p, '.');
    var sep := LastIndex(p, '/');
    var dot := LastIndex(p, '.');
    if dot > sep {
      if NonDotBetween(p, sep + 1, dot) {
        var k :| sep + 1 <= k < dot && p[k] != '.';
        assert l[k] != '.';
        assert l[dot..] == Lower(p[dot..]);
      }
      if NonDotBetween(l, sep + 1, dot) {
        var k :| sep + 1 <= k < dot && l[k] != '.';
        assert p[k] != '.';
      }
    }
  }

  lemma NonDotShift(a: string, name: string, d: int)
    requires 0 <= d <= |name|
    ensures NonDotBetween(a + name, |a|, |a| + d) == NonDotBetween(name, 0, d)
  {
    var p := a + name;
    if NonDotBetween(name, 0, d) {
      var k :| 0 <= k < d && name[k] != '.';
      assert p[|a| + k] == name[k];
    }
    if NonDotBetween(p, |a|, |a| + d) {
      var k :| |a| <= k < |a| + d && p[k] != '.';
      assert name[k - |a|] == p[k];
    }
  }

  /**
   * The extension of a joined path is the extension of its last component:
   * a directory prefix ending in '/' never changes where the extension starts.
   */
  lemma ExtensionAfterDirectory(a: string, name: string)
    requires a == [] || a[|a| - 1] == '/'
    requires '/' !in name
    ensures Extension(a + name) == Extension(name)
  {
    var p := a + name;
    LastIndexFinds(name, '/');
    LastIndexFinds(name, '.');
    LastIndexFinds(a, '/');
    LastIndexFinds(a, '.');
    LastIndexAppend(a, name, '/');
    LastIndexAppend(a, name, '.');
    var d := LastIndex(name, '.');
    assert LastIndex(name, '/') == -1;
    var sep := LastIndex(p, '/');
    assert sep == |a| - 1;
    if d >= 0 {
      DotInName(a, name, d);
    } else {
      var dot := LastIndex(p, '.');
      assert dot == LastIndex(a, '.');
      assert dot <= sep by {
        if a != [] {
          assert a[|a| - 1] == '/';
        }
      }
      assert SplitExt(p).1 == [];
      assert SplitExt(name).1 == [];
    }
  }

  lemma DotInName(a: string, name: string, d: int)
    requires a == [] || a[|a| - 1] == '/'
    requires '/' !in name
    requires LastIndex(name, '/') == -1 && LastIndex(a + name, '/') == |a| - 1
    requires 0 <= d && d == LastIndex(name, '.') && LastIndex(a + name, '.') == |a| + d
    ensures Extension(a + name) == Extension(name)
  {
    var p := a + name;
    LastIndexFinds(name, '.');
    assert p[|a| + d..] == name[d..];
    NonDotShift(a, name, d);
  }

  /** `os.path.join` of a directory and a plain file name keeps the file's extension. */
  lemma ExtensionOfJoin(root: string, name: string)
    requires '/' !in name
    ensures Extension(Join(root, name)) == Extension(name)
  {
    if |name| > 0 {
      assert name[0] in name;
    }
    if root == [] || root[|root| - 1] == '/' {
      ExtensionAfterDirectory(root, name);
    } else {
      assert root + "/" + name == (root + "/") + name;
      ExtensionAfterDirectory(root + "/", name);
    }
  }
}
