/** The file explorer: a tree of files and folders, a set of expanded folder
    paths, one selected path, and the flat list of rows the tree renders
    to. A folder's children show exactly while its path is expanded: every
    child of an expanded folder is rendered below it, and nothing inside a
    collapsed one. */
module FileExplorer {
  import opened Wrappers

  datatype ItemKind = File | Folder

  datatype FileItem = FileItem(name: string, kind: ItemKind, children: ChildList, size: Option<string>)

  /** The optional `children` array of an item. */
  datatype ChildList = NoChildren | HasChildren(items: seq<FileItem>)

  datatype ExplorerState = ExplorerState(expanded: set<string>, selected: Option<string>)

  /** Only the `src` folder starts expanded, and nothing is selected. */
  const Initial := ExplorerState({"src"}, None)

  /** Before any interaction only the `src` path is open and no row is
      selected. */
  lemma InitialState(items: seq<FileItem>)
    ensures forall p :: p in Initial.expanded <==> p == "src"
    ensures forall i :: 0 <= i < |Render(items, Initial)| ==> !Render(items, Initial)[i].selected
  {
  }

  /** `toggleFolder(path)`: the path leaves the expanded set if it was in
      it, and joins it otherwise. */
  function ToggleFolder(s: ExplorerState, path: string): (r: ExplorerState)
    ensures path in r.expanded <==> path !in s.expanded
    ensures forall q :: q != path ==> (q in r.expanded <==> q in s.expanded)
    ensures r.selected == s.selected
  {
    if path in s.expanded then s.(expanded := s.expanded - {path})
    else s.(expanded := s.expanded + {path})
  }

  /** Toggling the same folder twice restores the state. */
  lemma ToggleTwice(s: ExplorerState, path: string)
    ensures ToggleFolder(ToggleFolder(s, path), path) == s
  {
    var r := ToggleFolder(ToggleFolder(s, path), path);
    assert r.expanded == s.expanded;
  }

  /** Toggles of different folders commute. */
  lemma ToggleCommutes(s: ExplorerState, p: string, q: string)
    ensures ToggleFolder(ToggleFolder(s, p), q) == ToggleFolder(ToggleFolder(s, q), p)
  {
    var a := ToggleFolder(ToggleFolder(s, p), q);
    var b := ToggleFolder(ToggleFolder(s, q), p);
    assert a.expanded == b.expanded;
  }

  /** `handleFileClick(file, path)`: the path becomes the selection; the
      callback to the host page is left out. */
  function HandleFileClick(s: ExplorerState, path: string): (r: ExplorerState)
    ensures r.selected == Some(path)
    ensures r.expanded == s.expanded
  {
    s.(selected := Some(path))
  }

  /** Horizontal offset of a row, 20 units per nesting level. */
  function Indent(level: nat): nat {
    level * 20
  }

  /** A child's path: the parent path, a slash, the child's name. */
  function ChildPath(parent: string, name: string): (p: string)
    ensures |p| == |parent| + 1 + |name|
    ensures p[..|parent|] == parent && p[|parent|] == '/' && p[|parent| + 1..] == name
  {
    parent + "/" + name
  }

  /** One rendered line: a folder button or a file button. */
  datatype Row = Row(
    path: string,
    name: string,
    kind: ItemKind,
    level: nat,
    indent: nat,
    open: bool,
    selected: bool,
    size: Option<string>)

  predicate IsPrefix(p: string, s: string) {
    |p| <= |s| && s[..|p|] == p
  }

  /** Row `i` has a parent row above it: an expanded folder one level up
      whose path, a slash and row `i`'s name make row `i`'s path. */
  predicate HasParentRow(r: seq<Row>, i: nat, s: ExplorerState)
    requires i < |r|
  {
    exists j :: 0 <= j < i && r[j].kind == Folder && r[j].path in s.expanded
      && r[j].level + 1 == r[i].level && r[i].path == ChildPath(r[j].path, r[i].name)
  }

  lemma ParentRowAppend(a: seq<Row>, b: seq<Row>, i: nat, s: ExplorerState)
    requires i < |a| && HasParentRow(a, i, s)
    ensures HasParentRow(a + b, i, s)
  {
    var j :| 0 <= j < i && a[j].kind == Folder && a[j].path in s.expanded
      && a[j].level + 1 == a[i].level && a[i].path == ChildPath(a[j].path, a[i].name);
    assert (a + b)[j] == a[j] && (a + b)[i] == a[i];
  }

  lemma ParentRowPrepend(a: seq<Row>, b: seq<Row>, k: nat, s: ExplorerState)
    requires k < |b| && HasParentRow(b, k, s)
    ensures HasParentRow(a + b, |a| + k, s)
  {
    var j :| 0 <= j < k && b[j].kind == Folder && b[j].path in s.expanded
      && b[j].level + 1 == b[k].level && b[k].path == ChildPath(b[j].path, b[k].name);
    assert (a + b)[|a| + j] == b[j] && (a + b)[|a| + k] == b[k];
  }

  /** The names of the rows at exactly `level`, top to bottom. */
  function NamesAt(r: seq<Row>, level: nat): seq<string>
    decreases |r|
  {
    if r == [] then [] else (if r[0].level == level then [r[0].name] else []) + NamesAt(r[1..], level)
  }

  /** The names of a list of items, in order. */
  function Names(items: seq<FileItem>): seq<string> {
    seq(|items|, i requires 0 <= i < |items| => items[i].name)
  }

  lemma NamesCons(items: seq<FileItem>)
    requires items != []
    ensures Names(items) == [items[0].name] + Names(items[1..])
  {
  }

  lemma {:induction false} NamesAtConcat(a: seq<Row>, b: seq<Row>, level: nat)
    ensures NamesAt(a + b, level) == NamesAt(a, level) + NamesAt(b, level)
    decreases |a|
  {
    if a == [] {
      assert a + b == b;
    } else {
      assert (a + b)[1..] == a[1..] + b;
      NamesAtConcat(a[1..], b, level);
    }
  }

  lemma {:induction false} NamesAtDeeper(r: seq<Row>, level: nat)
    requires forall i :: 0 <= i < |r| ==> r[i].level > level
    ensures NamesAt(r, level) == []
    decreases |r|
  {
    if r != [] {
      NamesAtDeeper(r[1..], level);
    }
  }

  /** An item's rows hold one row at the item's own level: its first. */
  lemma ItemNamesAt(r: seq<Row>, name: string, level: nat)
    requires |r| >= 1 && r[0].level == level && r[0].name == name
    requires forall i :: 1 <= i < |r| ==> r[i].level > level
    ensures NamesAt(r, level) == [name]
  {
    NamesAtDeeper(r[1..], level);
  }

  /** Row `j` is a parent row of row `i`. */
  lemma ParentRowAt(r: seq<Row>, i: nat, j: nat, s: ExplorerState)
    requires j < i < |r|
    requires r[j].kind == Folder && r[j].path in s.expanded && r[j].level + 1 == r[i].level
    requires r[i].path == ChildPath(r[j].path, r[i].name)
    ensures HasParentRow(r, i, s)
  {
  }

  /** A folder row followed by its children's rows: every child row hangs
      under the folder row or under a row among the children. */
  lemma FolderRows(row: Row, below: seq<Row>, level: nat, s: ExplorerState)
    requires row.kind == Folder && row.path in s.expanded && row.level == level
    requires forall i {:trigger HasParentRow(below, i, s)} :: 0 <= i < |below| ==>
      (below[i].level == level + 1 && below[i].path == ChildPath(row.path, below[i].name)) || HasParentRow(below, i, s)
    ensures forall i :: 1 <= i < |[row] + below| ==> HasParentRow([row] + below, i, s)
  {
    forall i | 1 <= i < |[row] + below| ensures HasParentRow([row] + below, i, s) {
      FolderRow(row, below, level, s, i - 1);
    }
  }

  lemma FolderRow(row: Row, below: seq<Row>, level: nat, s: ExplorerState, k: nat)
    requires row.kind == Folder && row.path in s.expanded && row.level == level
    requires k < |below|
    requires (below[k].level == level + 1 && below[k].path == ChildPath(row.path, below[k].name)) || HasParentRow(below, k, s)
    ensures HasParentRow([row] + below, k + 1, s)
  {
    var r := [row] + below;
    assert r[k + 1] == below[k];
    if HasParentRow(below, k, s) {
      ParentRowPrepend([row], below, k, s);
    } else {
      assert r[0] == row;
      ParentRowAt(r, k + 1, 0, s);
    }
  }

  /** The rows of a child named `name` all lie under `parent/`. */
  lemma ItemUnderParent(first: seq<Row>, parent: string, name: string)
    requires |first| >= 1 && first[0].path == ChildPath(parent, name)
    requires forall i :: 1 <= i < |first| ==> IsPrefix(ChildPath(parent, name) + "/", first[i].path)
    ensures forall i :: 0 <= i < |first| ==> IsPrefix(parent + "/", first[i].path)
  {
    var p := ChildPath(parent, name);
    assert (parent + "/") == p[..|parent| + 1];
    forall i | 1 <= i < |first| ensures IsPrefix(parent + "/", first[i].path) {
      assert first[i].path[..|parent| + 1] == (p + "/")[..|parent| + 1];
    }
  }

  /** Indentation, selection marks and the common path prefix survive
      concatenating two runs of sibling rows. */
  lemma RowsConcat(a: seq<Row>, b: seq<Row>, parent: string, level: nat, s: ExplorerState)
    requires forall i :: 0 <= i < |a| ==> a[i].indent == Indent(a[i].level) && a[i].level >= level
    requires forall i :: 0 <= i < |a| ==> (a[i].selected <==> s.selected == Some(a[i].path))
    requires forall i :: 0 <= i < |a| ==> IsPrefix(parent + "/", a[i].path)
    requires forall i :: 0 <= i < |b| ==> b[i].indent == Indent(b[i].level) && b[i].level >= level
    requires forall i :: 0 <= i < |b| ==> (b[i].selected <==> s.selected == Some(b[i].path))
    requires forall i :: 0 <= i < |b| ==> IsPrefix(parent + "/", b[i].path)
    ensures forall i :: 0 <= i < |a + b| ==> (a + b)[i].indent == Indent((a + b)[i].level) && (a + b)[i].level >= level
    ensures forall i :: 0 <= i < |a + b| ==> ((a + b)[i].selected <==> s.selected == Some((a + b)[i].path))
    ensures forall i :: 0 <= i < |a + b| ==> IsPrefix(parent + "/", (a + b)[i].path)
  {
  }

  /** Indentation and selection marks survive concatenating two runs of
      rows. */
  lemma MarksConcat(a: seq<Row>, b: seq<Row>, s: ExplorerState)
    requires forall i :: 0 <= i < |a| ==> a[i].indent == Indent(a[i].level)
    requires forall i :: 0 <= i < |a| ==> (a[i].selected <==> s.selected == Some(a[i].path))
    requires forall i :: 0 <= i < |b| ==> b[i].indent == Indent(b[i].level)
    requires forall i :: 0 <= i < |b| ==> (b[i].selected <==> s.selected == Some(b[i].path))
    ensures forall i :: 0 <= i < |a + b| ==> (a + b)[i].indent == Indent((a + b)[i].level)
    ensures forall i :: 0 <= i < |a + b| ==> ((a + b)[i].selected <==> s.selected == Some((a + b)[i].path))
  {
  }

  /** One child's rows followed by its later siblings' rows. */
  lemma SiblingRows(first: seq<Row>, rest: seq<Row>, parent: string, name: string, level: nat, s: ExplorerState)
    requires |first| >= 1 && first[0].level == level && first[0].name == name && first[0].path == ChildPath(parent, name)
    requires forall i :: 1 <= i < |first| ==> first[i].level > level
    requires forall i :: 1 <= i < |first| ==> HasParentRow(first, i, s)
    requires forall i {:trigger HasParentRow(rest, i, s)} :: 0 <= i < |rest| ==>
      (rest[i].level == level && rest[i].path == ChildPath(parent, rest[i].name)) || HasParentRow(rest, i, s)
    ensures forall i {:trigger HasParentRow(first + rest, i, s)} :: 0 <= i < |first + rest| ==>
      ((first + rest)[i].level == level && (first + rest)[i].path == ChildPath(parent, (first + rest)[i].name))
      || HasParentRow(first + rest, i, s)
    ensures NamesAt(first + rest, level) == [name] + NamesAt(rest, level)
  {
    forall i | 0 <= i < |first + rest|
      ensures ((first + rest)[i].level == level && (first + rest)[i].path == ChildPath(parent, (first + rest)[i].name))
              || HasParentRow(first + rest, i, s)
    {
      SiblingRow(first, rest, parent, level, s, i);
    }
    NamesAtConcat(first, rest, level);
    ItemNamesAt(first, name, level);
  }

  lemma SiblingRow(first: seq<Row>, rest: seq<Row>, parent: string, level: nat, s: ExplorerState, i: nat)
    requires |first| >= 1 && first[0].level == level && first[0].path == ChildPath(parent, first[0].name)
    requires forall i :: 1 <= i < |first| ==> HasParentRow(first, i, s)
    requires forall i {:trigger HasParentRow(rest, i, s)} :: 0 <= i < |rest| ==>
      (rest[i].level == level && rest[i].path == ChildPath(parent, rest[i].name)) || HasParentRow(rest, i, s)
    requires i < |first + rest|
    ensures ((first + rest)[i].level == level && (first + rest)[i].path == ChildPath(parent, (first + rest)[i].name))
            || HasParentRow(first + rest, i, s)
  {
    if i == 0 {
      assert (first + rest)[0] == first[0];
    } else if i < |first| {
      ParentRowAppend(first, rest, i, s);
    } else {
      var k := i - |first|;
      assert (first + rest)[i] == rest[k];
      if HasParentRow(rest, k, s) {
        ParentRowPrepend(first, rest, k, s);
      }
    }
  }

  /** One top-level item's rows followed by the later items' rows. */
  lemma TopLevelRows(first: seq<Row>, rest: seq<Row>, name: string, s: ExplorerState)
    requires |first| >= 1 && first[0].level == 0 && first[0].name == name && first[0].path == name
    requires forall i :: 1 <= i < |first| ==> first[i].level > 0
    requires forall i :: 1 <= i < |first| ==> HasParentRow(first, i, s)
    requires forall i :: 0 <= i < |rest| && rest[i].level == 0 ==> rest[i].path == rest[i].name
    requires forall i {:trigger HasParentRow(rest, i, s)} :: 0 <= i < |rest| && rest[i].level > 0 ==> HasParentRow(rest, i, s)
    ensures forall i :: 0 <= i < |first + rest| && (first + rest)[i].level == 0 ==>
      (first + rest)[i].path == (first + rest)[i].name
    ensures forall i {:trigger HasParentRow(first + rest, i, s)} :: 0 <= i < |first + rest| && (first + rest)[i].level > 0 ==> HasParentRow(first + rest, i, s)
    ensures NamesAt(first + rest, 0) == [name] + NamesAt(rest, 0)
  {
    var r := first + rest;
    forall i | 0 <= i < |r| && r[i].level > 0 ensures HasParentRow(r, i, s) {
      if i < |first| {
        ParentRowAppend(first, rest, i, s);
      } else {
        assert r[i] == rest[i - |first|];
        assert HasParentRow(rest, i - |first|, s);
        ParentRowPrepend(first, rest, i - |first|, s);
      }
    }
    forall i | 0 <= i < |r| && r[i].level == 0 ensures r[i].path == r[i].name {
      if i >= |first| {
        assert r[i] == rest[i - |first|];
      }
    }
    NamesAtConcat(first, rest, 0);
    ItemNamesAt(first, name, 0);
  }

  /** `renderItem(item, path, level)`: the item's own row, followed, for an
      expanded folder with children, by the rows of each child at the next
      level under `path/name`. Every row below the first hangs under an
      expanded folder row above it, so nothing inside a collapsed folder is
      ever rendered. */
  function RenderItem(item: FileItem, path: string, level: nat, s: ExplorerState): (r: seq<Row>)
    ensures |r| >= 1
    ensures r[0].path == path && r[0].name == item.name && r[0].kind == item.kind && r[0].level == level
    ensures r[0].open <==> path in s.expanded
    ensures forall i :: 0 <= i < |r| ==> r[i].indent == Indent(r[i].level) && r[i].level >= level
    ensures forall i :: 0 <= i < |r| ==> (r[i].selected <==> s.selected == Some(r[i].path))
    ensures |r| > 1 <==>
      item.kind == Folder && path in s.expanded && item.children.HasChildren? && item.children.items != []
    ensures forall i :: 1 <= i < |r| ==> r[i].level > level && IsPrefix(path + "/", r[i].path)
    ensures forall i {:trigger HasParentRow(r, i, s)} :: 1 <= i < |r| ==> HasParentRow(r, i, s)
    ensures item.kind == Folder && path in s.expanded && item.children.HasChildren? ==>
      NamesAt(r[1..], level + 1) == Names(item.children.items)
    decreases item
  {
    var row := Row(path, item.name, item.kind, level, Indent(level), path in s.expanded,
                   s.selected == Some(path), if item.kind == File then item.size else None);
    match item.children
    case HasChildren(children) =>
      if item.kind == Folder && path in s.expanded then
        var below := RenderChildren(children, path, level + 1, s);
        FolderRows(row, below, level, s);
        assert ([row] + below)[1..] == below;
        [row] + below
      else [row]
    case NoChildren => [row]
  }

  /** The rows of a folder's children, in order: at `level` exactly the
      children's own rows, and every deeper row under an expanded folder row
      above it. */
  function RenderChildren(children: seq<FileItem>, parent: string, level: nat, s: ExplorerState): (r: seq<Row>)
    ensures forall i :: 0 <= i < |r| ==> r[i].indent == Indent(r[i].level) && r[i].level >= level
    ensures forall i :: 0 <= i < |r| ==> (r[i].selected <==> s.selected == Some(r[i].path))
    ensures forall i :: 0 <= i < |r| ==> IsPrefix(parent + "/", r[i].path)
    ensures forall i {:trigger HasParentRow(r, i, s)} :: 0 <= i < |r| ==>
      (r[i].level == level && r[i].path == ChildPath(parent, r[i].name)) || HasParentRow(r, i, s)
    ensures NamesAt(r, level) == Names(children)
    ensures |r| >= |children|
    decreases children
  {
    if children == [] then []
    else
      var first := RenderItem(children[0], ChildPath(parent, children[0].name), level, s);
      var rest := RenderChildren(children[1..], parent, level, s);
      ItemUnderParent(first, parent, children[0].name);
      RowsConcat(first, rest, parent, level, s);
      SiblingRows(first, rest, parent, children[0].name, level, s);
      NamesCons(children);
      first + rest
  }

  /** The whole tree: the top-level rows are the items, in order, each under
      its own name as path; every deeper row hangs under an expanded folder
      row above it; and the rows' paths are exactly the paths the tree
      shows, so every child of an expanded folder on an open branch
      appears. */
  function Render(items: seq<FileItem>, s: ExplorerState): (r: seq<Row>)
    ensures forall i :: 0 <= i < |r| ==> r[i].indent == Indent(r[i].level)
    ensures forall i :: 0 <= i < |r| ==> (r[i].selected <==> s.selected == Some(r[i].path))
    ensures forall i :: 0 <= i < |r| && r[i].level == 0 ==> r[i].path == r[i].name
    ensures forall i {:trigger HasParentRow(r, i, s)} :: 0 <= i < |r| && r[i].level > 0 ==> HasParentRow(r, i, s)
    ensures NamesAt(r, 0) == Names(items)
    ensures Paths(r) == VisiblePaths(items, s)
    ensures |r| >= |items|
    decreases items
  {
    if items == [] then []
    else
      var first := RenderItem(items[0], items[0].name, 0, s);
      var rest := Render(items[1..], s);
      ItemPaths(items[0], items[0].name, 0, s);
      PathsConcat(first, rest);
      TopLevelRows(first, rest, items[0].name, s);
      MarksConcat(first, rest, s);
      NamesCons(items);
      first + rest
  }

  /** The set of paths the tree shows, defined directly on the tree: an
      item's own path, and for an expanded folder with children the paths
      its children show. */
  function ItemVisible(item: FileItem, path: string, s: ExplorerState): set<string>
    decreases item
  {
    {path} + (if item.kind == Folder && path in s.expanded && item.children.HasChildren?
              then ChildrenVisible(item.children.items, path, s) else {})
  }

  function ChildrenVisible(children: seq<FileItem>, parent: string, s: ExplorerState): set<string>
    decreases children
  {
    if children == [] then {}
    else ItemVisible(children[0], ChildPath(parent, children[0].name), s) + ChildrenVisible(children[1..], parent, s)
  }

  function VisiblePaths(items: seq<FileItem>, s: ExplorerState): set<string>
    decreases items
  {
    if items == [] then {} else ItemVisible(items[0], items[0].name, s) + VisiblePaths(items[1..], s)
  }

  /** The paths of a list of rows. */
  function Paths(r: seq<Row>): set<string> {
    set i | 0 <= i < |r| :: r[i].path
  }

  lemma PathsConcat(a: seq<Row>, b: seq<Row>)
    ensures Paths(a + b) == Paths(a) + Paths(b)
  {
    forall p | p in Paths(a + b) ensures p in Paths(a) + Paths(b) {
      var i :| 0 <= i < |a + b| && (a + b)[i].path == p;
      if i >= |a| {
        assert b[i - |a|].path == p;
      }
    }
    forall p | p in Paths(a) + Paths(b) ensures p in Paths(a + b) {
      if p in Paths(a) {
        var i :| 0 <= i < |a| && a[i].path == p;
        assert (a + b)[i].path == p;
      } else {
        var i :| 0 <= i < |b| && b[i].path == p;
        assert (a + b)[|a| + i].path == p;
      }
    }
  }

  /** An item renders a row for exactly the paths it shows: every child of
      an expanded folder appears, recursively, and nothing else does. */
  lemma {:induction false} ItemPaths(item: FileItem, path: string, level: nat, s: ExplorerState)
    ensures Paths(RenderItem(item, path, level, s)) == ItemVisible(item, path, s)
    decreases item
  {
    var r := RenderItem(item, path, level, s);
    ItemRowsSplit(item, path, level, s);
    if item.kind == Folder && path in s.expanded && item.children.HasChildren? {
      ChildrenPaths(item.children.items, path, level + 1, s);
      PathsConcat([r[0]], RenderChildren(item.children.items, path, level + 1, s));
      assert Paths([r[0]]) == {path};
    } else {
      assert Paths(r) == {path};
    }
  }

  lemma {:induction false} ChildrenPaths(children: seq<FileItem>, parent: string, level: nat, s: ExplorerState)
    ensures Paths(RenderChildren(children, parent, level, s)) == ChildrenVisible(children, parent, s)
    decreases children
  {
    if children != [] {
      var first := RenderItem(children[0], ChildPath(parent, children[0].name), level, s);
      var rest := RenderChildren(children[1..], parent, level, s);
      ItemPaths(children[0], ChildPath(parent, children[0].name), level, s);
      ChildrenPaths(children[1..], parent, level, s);
      assert RenderChildren(children, parent, level, s) == first + rest;
      PathsConcat(first, rest);
    }
  }

  /** A collapsed folder, and any file, renders as its own row alone: no
      descendant is visible unless the folder's path is expanded. */
  lemma CollapsedHidesDescendants(item: FileItem, path: string, level: nat, s: ExplorerState)
    requires item.kind == File || path !in s.expanded
    ensures |RenderItem(item, path, level, s)| == 1
  {
  }

  /** Selecting a file does not change which rows are visible or where:
      only the selection marks move. */
  lemma ClickKeepsLayout(items: seq<FileItem>, s: ExplorerState, path: string, i: nat)
    requires i < |Render(items, s)|
    ensures |Render(items, HandleFileClick(s, path))| == |Render(items, s)|
    ensures Render(items, HandleFileClick(s, path))[i].path == Render(items, s)[i].path
    ensures Render(items, HandleFileClick(s, path))[i].selected <==> Render(items, s)[i].path == path
  {
    SelectionOnlyMarks(items, s, HandleFileClick(s, path));
  }

  /** Two states with the same expanded set render the same rows apart from
      the selection marks. */
  lemma {:induction false} SelectionOnlyMarks(items: seq<FileItem>, s: ExplorerState, t: ExplorerState)
    requires s.expanded == t.expanded
    ensures |Render(items, s)| == |Render(items, t)|
    ensures forall i :: 0 <= i < |Render(items, s)| ==>
      Render(items, s)[i].(selected := false) == Render(items, t)[i].(selected := false)
    decreases items
  {
    if items != [] {
      ItemSelectionOnlyMarks(items[0], items[0].name, 0, s, t);
      SelectionOnlyMarks(items[1..], s, t);
    }
  }

  lemma {:induction false} ItemSelectionOnlyMarks(item: FileItem, path: string, level: nat, s: ExplorerState, t: ExplorerState)
    requires s.expanded == t.expanded
    ensures |RenderItem(item, path, level, s)| == |RenderItem(item, path, level, t)|
    ensures forall i :: 0 <= i < |RenderItem(item, path, level, s)| ==>
      RenderItem(item, path, level, s)[i].(selected := false) == RenderItem(item, path, level, t)[i].(selected := false)
    decreases item
  {
    var rs := RenderItem(item, path, level, s);
    var rt := RenderItem(item, path, level, t);
    ItemRowsSplit(item, path, level, s);
    ItemRowsSplit(item, path, level, t);
    if item.kind == Folder && path in s.expanded && item.children.HasChildren? {
      var a := RenderChildren(item.children.items, path, level + 1, s);
      var b := RenderChildren(item.children.items, path, level + 1, t);
      ChildrenSelectionOnlyMarks(item.children.items, path, level + 1, s, t);
      forall i | 0 <= i < |rs| ensures rs[i].(selected := false) == rt[i].(selected := false) {
        if i > 0 {
          assert rs[i] == a[i - 1] && rt[i] == b[i - 1];
        }
      }
    }
  }

  /** An item's rows are its own row followed, when it is an expanded folder,
      by its children's rows. */
  lemma ItemRowsSplit(item: FileItem, path: string, level: nat, s: ExplorerState)
    ensures item.kind == Folder && path in s.expanded && item.children.HasChildren? ==>
      RenderItem(item, path, level, s) ==
        [RenderItem(item, path, level, s)[0]] + RenderChildren(item.children.items, path, level + 1, s)
    ensures !(item.kind == Folder && path in s.expanded && item.children.HasChildren?) ==>
      |RenderItem(item, path, level, s)| == 1
  {
  }

  lemma {:induction false} ChildrenSelectionOnlyMarks(children: seq<FileItem>, parent: string, level: nat, s: ExplorerState, t: ExplorerState)
    requires s.expanded == t.expanded
    ensures |RenderChildren(children, parent, level, s)| == |RenderChildren(children, parent, level, t)|
    ensures forall i :: 0 <= i < |RenderChildren(children, parent, level, s)| ==>
      RenderChildren(children, parent, level, s)[i].(selected := false) ==
      RenderChildren(children, parent, level, t)[i].(selected := false)
    decreases children
  {
    if children != [] {
      var path := ChildPath(parent, children[0].name);
      ChildrenRowsSplit(children, parent, level, s);
      ChildrenRowsSplit(children, parent, level, t);
      ItemSelectionOnlyMarks(children[0], path, level, s, t);
      ChildrenSelectionOnlyMarks(children[1..], parent, level, s, t);
      LayoutConcat(RenderItem(children[0], path, level, s), RenderChildren(children[1..], parent, level, s),
                   RenderItem(children[0], path, level, t), RenderChildren(children[1..], parent, level, t));
    }
  }

  /** A non-empty list of children renders as its first child's rows
      followed by the rows of the others. */
  lemma ChildrenRowsSplit(children: seq<FileItem>, parent: string, level: nat, s: ExplorerState)
    requires children != []
    ensures RenderChildren(children, parent, level, s) ==
      RenderItem(children[0], ChildPath(parent, children[0].name), level, s) + RenderChildren(children[1..], parent, level, s)
  {
  }

  /** Rows that agree apart from their selection marks, concatenated. */
  lemma LayoutConcat(a1: seq<Row>, a2: seq<Row>, b1: seq<Row>, b2: seq<Row>)
    requires |a1| == |b1| && forall i :: 0 <= i < |a1| ==> a1[i].(selected := false) == b1[i].(selected := false)
    requires |a2| == |b2| && forall i :: 0 <= i < |a2| ==> a2[i].(selected := false) == b2[i].(selected := false)
    ensures |a1 + a2| == |b1 + b2|
    ensures forall i :: 0 <= i < |a1 + a2| ==> (a1 + a2)[i].(selected := false) == (b1 + b2)[i].(selected := false)
  {
    forall i | 0 <= i < |a1 + a2| ensures (a1 + a2)[i].(selected := false) == (b1 + b2)[i].(selected := false) {
      if i >= |a1| {
        assert (a1 + a2)[i] == a2[i - |a1|] && (b1 + b2)[i] == b2[i - |a1|];
      }
    }
  }
}
