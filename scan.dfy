/**
 * `scan_directory`: which files a scan of the document root hands to the
 * indexer, and how that relates to the tree the file browser shows.
 */
module Scan {
  import opened Paths
  import opened FileTree

  /**
   * The files `scan_directory` hands to the indexer below entry `e` at
   * `path`: every file at any depth whose extension is supported. A
   * directory whose listing cannot be read contributes nothing.
   */
  function Scanned(e: Entry, path: string): set<string>
    decreases e, 1, 0
  {
    match e
    case File(n) => if IsSupported(n) then {path} else {}
    case Dir(_, Denied) => {}
    case Dir(_, Entries(items)) => ScannedFrom(e, path, |items|)
  }

  /** The files scanned below the first `n` entries of directory `e`. */
  function ScannedFrom(e: Entry, path: string, n: nat): set<string>
    requires e.Dir? && e.listing.Entries? && n <= |e.listing.items|
    decreases e, 0, n
  {
    if n == 0 then {}
    else
      var kid := e.listing.items[n - 1];
      assert kid in e.listing.items;
      ScannedFrom(e, path, n - 1) + Scanned(kid, ChildPath(path, kid.name))
  }

  /** The union of `f` over the entries of `s`. */
  ghost function UnionOf(s: seq<Entry>, f: Entry -> set<string>): set<string>
  {
    if s == [] then {} else UnionOf(s[..|s| - 1], f) + f(s[|s| - 1])
  }

  lemma {:induction false} UnionOfMember(s: seq<Entry>, f: Entry -> set<string>, p: string)
    ensures p in UnionOf(s, f) <==> exists x :: x in s && p in f(x)
  {
    if s != [] {
      var init, last := s[..|s| - 1], s[|s| - 1];
      UnionOfMember(init, f, p);
      assert s == init + [last];
      if p in f(last) {
        assert last in s;
      }
      if exists x :: x in s && p in f(x) {
        var x :| x in s && p in f(x);
        assert x != last ==> x in init;
      }
    }
  }

  /** The union over one more entry adds that entry's contribution. */
  lemma UnionOfSnoc(s: seq<Entry>, f: Entry -> set<string>, n: nat)
    requires 0 < n <= |s|
    ensures UnionOf(s[..n], f) == UnionOf(s[..n - 1], f) + f(s[n - 1])
  {
    assert s[..n][..n - 1] == s[..n - 1];
  }

  /** Scanning a directory scans each of its entries at its child path. */
  ghost function ScanAt(path: string): Entry -> set<string>
  {
    (x: Entry) => Scanned(x, ChildPath(path, x.name))
  }

  lemma {:induction false} ScannedFromIsUnion(e: Entry, path: string, n: nat)
    requires e.Dir? && e.listing.Entries? && n <= |e.listing.items|
    ensures ScannedFrom(e, path, n) == UnionOf(e.listing.items[..n], ScanAt(path))
  {
    if n > 0 {
      var items := e.listing.items;
      var kid := items[n - 1];
      ScannedFromIsUnion(e, path, n - 1);
      assert items[..n][..n - 1] == items[..n - 1];
      assert items[..n][n - 1] == kid;
      assert ScanAt(path)(kid) == Scanned(kid, ChildPath(path, kid.name));
    }
  }

  /** A file with an unsupported extension is never scanned. */
  lemma UnshownScansNothing(x: Entry, path: string)
    requires !Shown(x)
    ensures Scanned(x, path) == {}
  {
  }

  /** The paths of the file nodes of a tree, at any depth. */
  ghost function TreeFiles(t: TreeNode): set<string>
    decreases t, 1, 0
  {
    if t.kind == FileNode then {t.path} else ChildFiles(t, |t.children|)
  }

  /** The paths of the file nodes below the first `n` children of `t`. */
  ghost function ChildFiles(t: TreeNode, n: nat): set<string>
    requires n <= |t.children|
    decreases t, 0, n
  {
    if n == 0 then {} else ChildFiles(t, n - 1) + TreeFiles(t.children[n - 1])
  }

  /** The files below the first `n` children of a built folder are those the scan finds below them. */
  lemma {:induction false} ChildFilesAreScanned(t: TreeNode, e: Entry, path: string, n: nat)
    requires IsTreeOf(t, e, path) && e.Dir? && e.listing.Entries?
    requires n <= |VisitedChildren(e.listing.items)|
    ensures n <= |t.children|
    ensures ChildFiles(t, n) == UnionOf(VisitedChildren(e.listing.items)[..n], ScanAt(path))
    decreases t, 0, n
  {
    if n > 0 {
      var kids := VisitedChildren(e.listing.items);
      var kid := kids[n - 1];
      var kidPath := ChildPath(path, kid.name);
      ChildFilesAreScanned(t, e, path, n - 1);
      assert IsTreeOf(t.children[n - 1], kid, kidPath);
      VisitedChildrenShownSorted(e.listing.items);
      TreeShowsScannedFiles(t.children[n - 1], kid, kidPath);
      UnionOfSnoc(kids, ScanAt(path), n);
      assert ScanAt(path)(kid) == Scanned(kid, kidPath);
    }
  }

  /**
   * The file tree and the directory scan agree: the files the tree shows
   * below a shown entry are exactly the files the scan hands to the indexer there.
   */
  lemma {:induction false} TreeShowsScannedFiles(t: TreeNode, e: Entry, path: string)
    requires IsTreeOf(t, e, path) && Shown(e)
    ensures TreeFiles(t) == Scanned(e, path)
    decreases t, 1, 0
  {
    if e.Dir? && e.listing.Entries? {
      var items := e.listing.items;
      var kids := VisitedChildren(items);
      ChildFilesAreScanned(t, e, path, |kids|);
      ScannedFromIsUnion(e, path, |items|);
      assert kids[..|kids|] == kids;
      assert items[..|items|] == items;
      VisitedChildrenExactly(items);
      forall p ensures p in UnionOf(kids, ScanAt(path)) <==> p in UnionOf(items, ScanAt(path)) {
        UnionOfMember(kids, ScanAt(path), p);
        UnionOfMember(items, ScanAt(path), p);
        if p in UnionOf(items, ScanAt(path)) {
          var x :| x in items && p in ScanAt(path)(x);
          if !Shown(x) {
            UnshownScansNothing(x, ChildPath(path, x.name));
          }
          assert x in kids;
        }
      }
    }
  }
}
