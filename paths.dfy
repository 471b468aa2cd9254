/**
 * The parts of `pathlib` the server uses to decide which files it handles:
 * the suffix of a file name, its lower-cased form, the set of supported
 * extensions and the string of a child path.
 */
module Paths {
  import opened Text

  /** The extensions the scanner and the tree builder keep. */
  const SupportedExtensions: set<string> := {".pdf", ".docx", ".doc", ".xlsx", ".xls", ".txt", ".rtf"}

  /** `str.rfind(c, 0, n)`: the highest index below `n` holding `c`, or -1. */
  function LastIndexBefore(s: string, c: char, n: nat): (r: int)
    requires n <= |s|
    ensures -1 <= r < n
    ensures r >= 0 ==> s[r] == c
    ensures forall k :: r < k < n ==> s[k] != c
  {
    if n == 0 then -1
    else if s[n - 1] == c then n - 1
    else LastIndexBefore(s, c, n - 1)
  }

  /**
   * A dot at index `k` that starts a suffix: it is neither the first nor the
   * last character, and no dot follows it.
   */
  predicate SuffixDotAt(name: string, k: int) {
    0 < k < |name| - 1 && name[k] == '.' && '.' !in name[k + 1..]
  }

  /** No dot follows a dot that starts a suffix. */
  lemma NoDotAfter(name: string, k: int)
    requires SuffixDotAt(name, k)
    ensures forall m :: k < m < |name| ==> name[m] != '.'
  {
    forall m | k < m < |name| ensures name[m] != '.' {
      assert name[m] == name[k + 1..][m - k - 1];
    }
  }

  /** At most one dot starts a suffix. */
  lemma SuffixDotUnique(name: string, k: int, m: int)
    requires SuffixDotAt(name, k) && SuffixDotAt(name, m)
    ensures k == m
  {
    NoDotAfter(name, k);
    NoDotAfter(name, m);
  }

  /**
   * `PurePath.suffix` of a final path component: the text from the last dot,
   * when that dot is neither the first nor the last character; otherwise "".
   */
  function Suffix(name: string): (r: string)
    ensures r != [] <==> exists k :: SuffixDotAt(name, k)
    ensures r != [] ==> |r| >= 2 && r[0] == '.' && '.' !in r[1..]
    ensures r != [] ==> |r| < |name| && r == name[|name| - |r|..]
  {
    if exists k :: 0 < k < |name| && SuffixDotAt(name, k) then
      var k :| 0 < k < |name| && SuffixDotAt(name, k);
      assert forall m :: SuffixDotAt(name, m) ==> m == k by {
        forall m | SuffixDotAt(name, m) ensures m == k {
          SuffixDotUnique(name, k, m);
        }
      }
      name[k..]
    else
      []
  }

  /** The suffix is what `rfind` finds: the text from the last dot, under the same two conditions. */
  lemma SuffixFromLastDot(name: string)
    ensures var i := LastIndexBefore(name, '.', |name|);
      Suffix(name) == if 0 < i < |name| - 1 then name[i..] else []
  {
    var i := LastIndexBefore(name, '.', |name|);
    if 0 < i < |name| - 1 {
      assert SuffixDotAt(name, i);
      SuffixDotUnique(name, i, |name| - |Suffix(name)|);
    } else {
      forall k | 0 < k < |name| - 1 && name[k] == '.' ensures '.' in name[k + 1..] {
        assert name[i] == name[k + 1..][i - k - 1];
      }
    }
  }

  /** `path.suffix.lower()`: the extension the server compares. */
  function Extension(name: string): (r: string)
    ensures |r| == |Suffix(name)|
    ensures r != [] ==> r[0] == '.' && r == Lower(name[|name| - |r|..])
  {
    Lower(Suffix(name))
  }

  /** The filter `path.suffix.lower() in {...}` of the scanner and the tree builder. */
  predicate IsSupported(name: string)
  {
    Extension(name) in SupportedExtensions
  }

  /** `name` ends, ignoring ASCII case, in `ext` and has something before it. */
  predicate EndsWithExtension(name: string, ext: string) {
    |ext| < |name| && Lower(name[|name| - |ext|..]) == ext
  }

  /** Each extension is a dot followed by two to four characters that are not dots. */
  lemma ExtensionShape(ext: string)
    requires ext in SupportedExtensions
    ensures 3 <= |ext| <= 5 && ext[0] == '.' && forall m :: 0 < m < |ext| ==> ext[m] != '.'
  {
  }

  /** Lower-casing keeps a dot a dot and makes nothing else one. */
  lemma LowerDot(s: string, m: nat)
    requires m < |s|
    ensures Lower(s)[m] == '.' <==> s[m] == '.'
  {
  }

  /** A name that ends in an extension, with something before it, has that extension. */
  lemma EndsWithExtensionIs(name: string, ext: string)
    requires ext in SupportedExtensions && EndsWithExtension(name, ext)
    ensures Extension(name) == ext
  {
    ExtensionShape(ext);
    var k := |name| - |ext|;
    var tail := name[k..];
    LowerDot(tail, 0);
    var after := name[k + 1..];
    forall m | 0 <= m < |after| ensures after[m] != '.' {
      LowerDot(tail, m + 1);
      assert after[m] == tail[m + 1];
    }
    assert SuffixDotAt(name, k);
    var r := Suffix(name);
    assert r[1..] == name[|name| - |r| + 1..];
    assert SuffixDotAt(name, |name| - |r|);
    SuffixDotUnique(name, k, |name| - |r|);
  }

  /**
   * The filter as a test on the end of the name: a name is supported iff,
   * ignoring ASCII case, it ends in one of the extensions with at least one
   * character before it. A hidden file such as ".pdf" has no suffix and is
   * not supported; "a..PDF" is.
   */
  lemma SupportedIffEndsWith(name: string)
    ensures IsSupported(name) <==> exists ext :: ext in SupportedExtensions && EndsWithExtension(name, ext)
  {
    if IsSupported(name) {
      assert EndsWithExtension(name, Extension(name));
    }
    if exists ext :: ext in SupportedExtensions && EndsWithExtension(name, ext) {
      var ext :| ext in SupportedExtensions && EndsWithExtension(name, ext);
      EndsWithExtensionIs(name, ext);
    }
  }

  /** `str(parent / name)`: one separator between, except after the root "/". */
  function ChildPath(parent: string, name: string): string
  {
    if parent == "/" then "/" + name else parent + "/" + name
  }

  /**
   * Siblings get distinct paths, and no child with a name has its parent's
   * path: the child path determines the name below a given parent.
   */
  lemma ChildPathInjective(parent: string, a: string, b: string)
    ensures ChildPath(parent, a) == ChildPath(parent, b) ==> a == b
    ensures a != [] ==> ChildPath(parent, a) != parent
  {
    var prefix := if parent == "/" then "/" else parent + "/";
    assert ChildPath(parent, a) == prefix + a && ChildPath(parent, b) == prefix + b;
    assert (prefix + a)[|prefix|..] == a && (prefix + b)[|prefix|..] == b;
  }
}
