/**
 * `build_file_tree` and the file filter of `scan_directory`, over an
 * in-memory picture of the document directory instead of the file system.
 */
module FileTree {
  import opened Text
  import opened Paths

  /** One entry of the document directory. */
  datatype Entry = Dir(name: string, listing: Listing) | File(name: string)

  /** What listing a directory yields: its entries, or `PermissionError`. */
  datatype Listing = Denied | Entries(items: seq<Entry>)

  /** The `type` field of a tree node: `'folder'` or `'file'`. */
  datatype NodeType = Folder | FileNode

  /** A `FileTreeNode` as `build_file_tree` fills it in (`file_info` stays `None`). */
  datatype TreeNode = TreeNode(name: string, path: string, kind: NodeType, children: seq<TreeNode>)

  /** Python's `<=` on strings: code point by code point, a prefix first. */
  predicate NameLe(a: string, b: string)
  {
    a == [] || (b != [] && (a[0] < b[0] || (a[0] == b[0] && NameLe(a[1..], b[1..]))))
  }

  lemma {:induction false} NameLeTotal(a: string, b: string)
    ensures NameLe(a, b) || NameLe(b, a)
  {
    if a != [] && b != [] && a[0] == b[0] {
      NameLeTotal(a[1..], b[1..]);
    }
  }

  lemma {:induction false} NameLeTransitive(a: string, b: string, c: string)
    requires NameLe(a, b) && NameLe(b, c)
    ensures NameLe(a, c)
  {
    if a != [] && a[0] == b[0] && b[0] == c[0] {
      NameLeTransitive(a[1..], b[1..], c[1..]);
    }
  }

  /** Putting the same text in front of two strings does not change their order. */
  lemma {:induction false} NameLeCommonPrefix(p: string, a: string, b: string)
    ensures NameLe(p + a, p + b) <==> NameLe(a, b)
  {
    if p != [] {
      assert (p + a)[1..] == p[1..] + a;
      assert (p + b)[1..] == p[1..] + b;
      NameLeCommonPrefix(p[1..], a, b);
    } else {
      assert p + a == a && p + b == b;
    }
  }

  /** Entries in ascending order of name. */
  predicate SortedByName(s: seq<Entry>)
  {
    forall i, j :: 0 <= i < j < |s| ==> NameLe(s[i].name, s[j].name)
  }

  /** Insertion of one entry into a sorted listing. */
  function Insert(e: Entry, s: seq<Entry>): seq<Entry>
  {
    if s == [] then [e]
    else if NameLe(e.name, s[0].name) then [e] + s
    else [s[0]] + Insert(e, s[1..])
  }

  /** Insertion adds the one entry and loses none. */
  lemma {:induction false} InsertMultiset(e: Entry, s: seq<Entry>)
    ensures multiset(Insert(e, s)) == multiset(s) + multiset{e}
  {
    if s != [] && !NameLe(e.name, s[0].name) {
      InsertMultiset(e, s[1..]);
      assert s == [s[0]] + s[1..];
    }
  }

  /** An entry no later than every entry of a listing is no later than anything inserted after it. */
  lemma InsertLowerBound(x: Entry, e: Entry, s: seq<Entry>)
    requires NameLe(x.name, e.name)
    requires forall k :: 0 <= k < |s| ==> NameLe(x.name, s[k].name)
    ensures forall k :: 0 <= k < |Insert(e, s)| ==> NameLe(x.name, Insert(e, s)[k].name)
  {
    InsertMultiset(e, s);
    var r := Insert(e, s);
    forall k | 0 <= k < |r| ensures NameLe(x.name, r[k].name) {
      assert r[k] in multiset(r);
      if r[k] != e {
        assert r[k] in multiset(s);
      }
    }
  }

  /** Insertion into an ordered listing keeps it ordered. */
  lemma {:induction false} InsertSorted(e: Entry, s: seq<Entry>)
    requires SortedByName(s)
    ensures SortedByName(Insert(e, s))
  {
    if s == [] {
    } else if NameLe(e.name, s[0].name) {
      var r := [e] + s;
      forall i, j | 0 <= i < j < |r| ensures NameLe(r[i].name, r[j].name) {
        if i == 0 && j > 1 {
          NameLeTransitive(e.name, s[0].name, s[j - 1].name);
        }
      }
    } else {
      NameLeTotal(e.name, s[0].name);
      var tail := s[1..];
      assert SortedByName(tail);
      InsertSorted(e, tail);
      InsertLowerBound(s[0], e, tail);
      var rest := Insert(e, tail);
      assert Insert(e, s) == [s[0]] + rest;
    }
  }

  /** `sorted(path.iterdir())`: the children of one directory share their parent, so they sort by name. */
  function SortByName(s: seq<Entry>): seq<Entry>
  {
    if s == [] then [] else Insert(s[0], SortByName(s[1..]))
  }

  /** The sorted listing is ordered and holds exactly the entries of the listing. */
  lemma {:induction false} SortByNameCorrect(s: seq<Entry>)
    ensures SortedByName(SortByName(s))
    ensures multiset(SortByName(s)) == multiset(s)
  {
    if s != [] {
      SortByNameCorrect(s[1..]);
      InsertSorted(s[0], SortByName(s[1..]));
      InsertMultiset(s[0], SortByName(s[1..]));
      assert s == [s[0]] + s[1..];
    }
  }

  /** The test `child.is_dir() or child.suffix.lower() in {...}` of `build_file_tree`. */
  predicate Shown(e: Entry)
  {
    e.Dir? || IsSupported(e.name)
  }

  /** The entries among the first `n` of a listing that the loop of `build_file_tree` keeps, in order. */
  function ShownAmong(s: seq<Entry>, n: nat): seq<Entry>
    requires n <= |s|
  {
    if n == 0 then [] else ShownAmong(s, n - 1) + (if Shown(s[n - 1]) then [s[n - 1]] else [])
  }

  /** The kept entries are exactly the shown entries among the first `n`. */
  lemma {:induction false} ShownAmongExactly(s: seq<Entry>, n: nat)
    requires n <= |s|
    ensures forall e :: e in ShownAmong(s, n) <==> e in s[..n] && Shown(e)
  {
    if n > 0 {
      ShownAmongExactly(s, n - 1);
      assert s[..n] == s[..n - 1] + [s[n - 1]];
    }
  }

  /** One more entry passed: it is kept exactly when it is shown. */
  lemma ShownAmongStep(s: seq<Entry>, i: nat)
    requires i < |s|
    ensures ShownAmong(s, i + 1) == ShownAmong(s, i) + (if Shown(s[i]) then [s[i]] else [])
  {
  }

  /** A bound on the names of the first `n` entries bounds the names of those kept. */
  lemma {:induction false} ShownAmongBelow(s: seq<Entry>, n: nat, bound: string)
    requires n <= |s|
    requires forall k :: 0 <= k < n ==> NameLe(s[k].name, bound)
    ensures forall i :: 0 <= i < |ShownAmong(s, n)| ==> NameLe(ShownAmong(s, n)[i].name, bound)
  {
    if n > 0 {
      ShownAmongBelow(s, n - 1, bound);
    }
  }

  /** Keeping some entries of an ordered listing keeps them ordered. */
  lemma {:induction false} ShownAmongSorted(s: seq<Entry>, n: nat)
    requires n <= |s| && SortedByName(s)
    ensures SortedByName(ShownAmong(s, n))
  {
    if n > 0 {
      ShownAmongSorted(s, n - 1);
      var prev := ShownAmong(s, n - 1);
      if Shown(s[n - 1]) {
        ShownAmongBelow(s, n - 1, s[n - 1].name);
        var r := prev + [s[n - 1]];
        assert ShownAmong(s, n) == r;
        forall i, j | 0 <= i < j < |r| ensures NameLe(r[i].name, r[j].name) {
          if j == |r| - 1 {
            assert r[i] == prev[i];
          } else {
            assert r[i] == prev[i] && r[j] == prev[j];
          }
        }
      }
    }
  }

  /** The children `build_file_tree` visits in a readable directory, in order. */
  function VisitedChildren(listing: seq<Entry>): (kids: seq<Entry>)
    ensures forall i :: 0 <= i < |kids| ==> kids[i] in listing
  {
    var sorted := SortByName(listing);
    SortByNameCorrect(listing);
    ShownAmongExactly(sorted, |sorted|);
    assert sorted[..|sorted|] == sorted;
    forall k | k in ShownAmong(sorted, |sorted|) ensures k in listing {
      assert k in multiset(sorted);
    }
    ShownAmong(sorted, |sorted|)
  }

  /**
   * `t` is the tree `build_file_tree` returns for entry `e` at `path`: it has
   * the entry's name and that path; it is a folder exactly when the entry is
   * a directory; a file or an unreadable directory has no children; a
   * readable directory has one child per visited entry, in visiting order,
   * each the tree of that entry at its child path.
   */
  ghost predicate IsTreeOf(t: TreeNode, e: Entry, path: string)
    decreases t
  {
    t.name == e.name && t.path == path
    && (t.kind == Folder <==> e.Dir?)
    && if e.Dir? && e.listing.Entries? then
         var kids := VisitedChildren(e.listing.items);
         |t.children| == |kids|
         && forall i :: 0 <= i < |kids| ==> IsTreeOf(t.children[i], kids[i], ChildPath(path, kids[i].name))
       else
         t.children == []
  }

  /** An entry has at most one tree: the tree is a function of the entry and its path. */
  lemma {:induction false} TreeOfUnique(t1: TreeNode, t2: TreeNode, e: Entry, path: string)
    requires IsTreeOf(t1, e, path) && IsTreeOf(t2, e, path)
    ensures t1 == t2
    decreases t1
  {
    if e.Dir? && e.listing.Entries? {
      var kids := VisitedChildren(e.listing.items);
      forall i | 0 <= i < |kids| ensures t1.children[i] == t2.children[i] {
        TreeOfUnique(t1.children[i], t2.children[i], kids[i], ChildPath(path, kids[i].name));
      }
      assert t1.children == t2.children;
    }
  }

  /** `children` are, one for one, the trees of the entries `kept` under `path`. */
  ghost predicate TreesOf(children: seq<TreeNode>, kept: seq<Entry>, path: string)
  {
    |children| == |kept|
    && forall j :: 0 <= j < |kept| ==> IsTreeOf(children[j], kept[j], ChildPath(path, kept[j].name))
  }

  /** Appending one more child tree with its entry. */
  lemma TreesOfSnoc(children: seq<TreeNode>, kept: seq<Entry>, path: string, sub: TreeNode, child: Entry)
    requires TreesOf(children, kept, path)
    requires IsTreeOf(sub, child, ChildPath(path, child.name))
    ensures TreesOf(children + [sub], kept + [child], path)
  {
    var cs, ks := children + [sub], kept + [child];
    forall j | 0 <= j < |ks|
      ensures IsTreeOf(cs[j], ks[j], ChildPath(path, ks[j].name))
    {
      if j == |kept| {
        assert cs[j] == sub;
        assert ks[j] == child;
      } else {
        assert IsTreeOf(children[j], kept[j], ChildPath(path, kept[j].name));
      }
    }
  }

  /** A readable directory whose children are the trees of its visited entries. */
  lemma DirectoryTree(e: Entry, path: string, children: seq<TreeNode>)
    requires e.Dir? && e.listing.Entries?
    requires TreesOf(children, VisitedChildren(e.listing.items), path)
    ensures IsTreeOf(TreeNode(e.name, path, Folder, children), e, path)
  {
  }

  /** Every entry of the sorted listing comes from the listing. */
  lemma SortedFromListing(listing: seq<Entry>, i: nat)
    requires i < |SortByName(listing)|
    ensures SortByName(listing)[i] in listing
  {
    SortByNameCorrect(listing);
    assert SortByName(listing)[i] in multiset(SortByName(listing));
  }

  /**
   * `build_file_tree`: a node for the entry; for a directory whose listing
   * can be read, a child node for every subdirectory and supported file, in
   * sorted order, each built the same way.
   */
  method BuildFileTree(e: Entry, path: string) returns (node: TreeNode)
    ensures IsTreeOf(node, e, path)
    decreases e
  {
    node := TreeNode(e.name, path, if e.Dir? then Folder else FileNode, []);
    if e.Dir? && e.listing.Entries? {
      var listing := e.listing.items;
      var sorted := SortByName(listing);
      var children: seq<TreeNode> := [];
      ghost var kept: seq<Entry> := [];
      for i := 0 to |sorted|
        invariant kept == ShownAmong(sorted, i)
        invariant TreesOf(children, kept, path)
      {
        var child := sorted[i];
        ShownAmongStep(sorted, i);
        if child.Dir? || IsSupported(child.name) {
          SortedFromListing(listing, i);
          var sub := BuildFileTree(child, ChildPath(path, child.name));
          TreesOfSnoc(children, kept, path, sub, child);
          children := children + [sub];
          kept := kept + [child];
        }
      }
      DirectoryTree(e, path, children);
      node := node.(children := children);
    }
  }

  /**
   * The shape every node of a built tree has: a file node has no children;
   * each child's path is its parent's path joined with its name; a file
   * child has a supported extension; children come in ascending order of
   * path; and every child has the same shape.
   */
  ghost predicate WellFormed(t: TreeNode)
  {
    (t.kind == FileNode ==> t.children == [])
    && (forall i :: 0 <= i < |t.children| ==>
          t.children[i].path == ChildPath(t.path, t.children[i].name)
          && (t.children[i].kind == FileNode ==> IsSupported(t.children[i].name))
          && WellFormed(t.children[i]))
    && (forall i, j :: 0 <= i < j < |t.children| ==> NameLe(t.children[i].path, t.children[j].path))
  }

  /** The children visited are shown entries of the listing, in name order. */
  lemma VisitedChildrenShownSorted(listing: seq<Entry>)
    ensures var kids := VisitedChildren(listing);
      SortedByName(kids) && forall i :: 0 <= i < |kids| ==> Shown(kids[i])
  {
    var kids := VisitedChildren(listing);
    var sorted := SortByName(listing);
    SortByNameCorrect(listing);
    ShownAmongSorted(sorted, |sorted|);
    ShownAmongExactly(sorted, |sorted|);
    assert sorted[..|sorted|] == sorted;
    forall i | 0 <= i < |kids| ensures Shown(kids[i]) {
      assert kids[i] in kids;
    }
  }

  /** `build_file_tree` visits exactly the subdirectories and supported files of a listing. */
  lemma VisitedChildrenExactly(listing: seq<Entry>)
    ensures forall x :: x in VisitedChildren(listing) <==> x in listing && Shown(x)
  {
    var sorted := SortByName(listing);
    SortByNameCorrect(listing);
    ShownAmongExactly(sorted, |sorted|);
    assert sorted[..|sorted|] == sorted;
    forall x | x in listing ensures x in sorted {
      assert x in multiset(listing);
    }
  }

  /** Every tree `build_file_tree` returns has that shape, at every depth. */
  lemma {:induction false} TreeWellFormed(t: TreeNode, e: Entry, path: string)
    requires IsTreeOf(t, e, path)
    ensures WellFormed(t)
    decreases t
  {
    if e.Dir? && e.listing.Entries? {
      var kids := VisitedChildren(e.listing.items);
      VisitedChildrenShownSorted(e.listing.items);
      forall i | 0 <= i < |t.children|
        ensures t.children[i].path == ChildPath(t.path, t.children[i].name)
        ensures t.children[i].kind == FileNode ==> IsSupported(t.children[i].name)
        ensures WellFormed(t.children[i])
      {
        TreeWellFormed(t.children[i], kids[i], ChildPath(path, kids[i].name));
      }
      var prefix := if path == "/" then "/" else path + "/";
      forall i, j | 0 <= i < j < |t.children| ensures NameLe(t.children[i].path, t.children[j].path) {
        assert t.children[i].path == prefix + kids[i].name;
        assert t.children[j].path == prefix + kids[j].name;
        NameLeCommonPrefix(prefix, kids[i].name, kids[j].name);
      }
    }
  }
}
