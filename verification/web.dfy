/**
 The tree browser of web/web.go, without the DOM: how a fetched listing becomes a
 list of clickable items, where a click navigates, and how blob text is split into
 display lines. The UI's state is the current address and the rendered file list;
 an alert and the content pane are outputs. Fetches the source dispatches as
 goroutines are modelled as the request a click produces.
 */
module Web {
  import opened Wrappers
  import opened Text
  import opened GoPath
  import opened Gotile

  /** File mode 0100755, an executable file. */
  const ModeExecutable: int := 33261
  /** File mode 0120000, a symbolic link. */
  const ModeSymlink: int := 40960
  /** File mode 040000, a directory. */
  const ModeTree: int := 16384

  /** The click handler an item carries, if any. */
  datatype Handler = NoHandler | ContentHandler | TreeHandler

  /** One rendered `fileentry` span: its text and its click handler. */
  datatype Item = Item(text: string, handler: Handler)

  /** What the UI keeps between events. */
  datatype UI = UI(addr: TreeAddr, fileList: seq<Item>)

  /** The state after a listing fetch, and the alert raised, if any. */
  datatype ListOutcome = ListOutcome(ui: UI, alert: Option<Error>)

  /** The request a click starts. */
  datatype Navigation = Stay | OpenContent(target: TreeAddr) | OpenTree(target: TreeAddr)

  /** The content pane after a blob fetch: an error text or the lines shown. */
  datatype ContentView = ContentError(err: Error) | ContentLines(lines: seq<string>)

  /**
   The class of an entry: the mode decides for executables and symbolic links, and
   every other entry keeps the type the server sent.
   */
  function Classify(e: TreeEntry): (c: string)
    ensures e.mode == ModeExecutable ==> c == "xblob"
    ensures e.mode == ModeSymlink ==> c == "slink"
    ensures e.mode != ModeExecutable && e.mode != ModeSymlink ==> c == e.kind
  {
    if e.mode == ModeExecutable then "xblob"
    else if e.mode == ModeSymlink then "slink"
    else e.kind
  }

  /** Files open in the content pane, directories open as a listing, nothing else is clickable. */
  function Route(c: string): (h: Handler)
    ensures h == ContentHandler <==> c == "blob" || c == "xblob"
    ensures h == TreeHandler <==> c == "tree"
  {
    if c == "blob" || c == "xblob" then ContentHandler
    else if c == "tree" then TreeHandler
    else NoHandler
  }

  /**
   How the mode decides the handler: an executable always opens as content, a
   symbolic link is never clickable, whatever type the server sent; any other entry
   is routed by its type alone.
   */
  lemma HandlerByMode(e: TreeEntry)
    ensures e.mode == ModeExecutable ==> Route(Classify(e)) == ContentHandler
    ensures e.mode == ModeSymlink ==> Route(Classify(e)) == NoHandler
    ensures e.mode != ModeExecutable && e.mode != ModeSymlink ==> Route(Classify(e)) == Route(e.kind)
  {
  }

  /** One item per entry, in entry order, showing the entry's name. */
  function RenderListing(entries: seq<TreeEntry>): (items: seq<Item>)
    ensures |items| == |entries|
    ensures forall i :: 0 <= i < |entries| ==>
      items[i] == Item(entries[i].name, Route(Classify(entries[i])))
  {
    if |entries| == 0 then []
    else [Item(entries[0].name, Route(Classify(entries[0])))] + RenderListing(entries[1..])
  }

  /** The root of the tree is named by the empty path or `.`. */
  predicate IsRoot(path: string)
  {
    path == "" || path == "."
  }

  /** The synthetic entry that leads to the parent directory. */
  const ParentEntry := TreeEntry(ModeTree, "tree", "", "..")

  /**
   The entries shown for the directory at `path`: below the root a `..` directory
   entry is appended after the server's entries, which are kept as they are.
   */
  function WithParent(path: string, entries: seq<TreeEntry>): (r: seq<TreeEntry>)
    ensures IsRoot(path) ==> r == entries
    ensures !IsRoot(path) ==> |r| == |entries| + 1 && r[..|entries|] == entries && r[|entries|] == ParentEntry
  {
    if IsRoot(path) then entries else entries + [ParentEntry]
  }

  /**
   `fetchFileList`: on an error the alert is raised and nothing else changes; on
   success the file list is replaced by the rendered listing and the address becomes
   the fetched one.
   */
  function FetchFileList(ui: UI, addr: TreeAddr, s: Service, fetch: Fetcher, decode: JsonDecoder): (r: ListOutcome)
    ensures Tree(s, addr, fetch, decode).err.Some? ==>
      r == ListOutcome(ui, Tree(s, addr, fetch, decode).err)
    ensures Tree(s, addr, fetch, decode).err.None? ==>
      && r.alert.None?
      && r.ui.addr == addr
      && r.ui.fileList == RenderListing(WithParent(addr.path, Tree(s, addr, fetch, decode).tree.entries))
  {
    var t := Tree(s, addr, fetch, decode);
    match t.err
    case Some(e) => ListOutcome(ui, Some(e))
    case None => ListOutcome(UI(addr, RenderListing(WithParent(addr.path, t.tree.entries))), None)
  }

  /** The address only ever changes to the one fetched, and only when the fetch succeeded. */
  lemma AddressFollowsSuccess(ui: UI, addr: TreeAddr, s: Service, fetch: Fetcher, decode: JsonDecoder)
    ensures FetchFileList(ui, addr, s, fetch, decode).ui.addr == ui.addr
         || (FetchFileList(ui, addr, s, fetch, decode).ui.addr == addr && Tree(s, addr, fetch, decode).err.None?)
  {
  }

  /**
   A successful listing below the root shows one item per server entry and then a
   `..` item that opens a listing; at the root it shows exactly the server's entries.
   */
  lemma ListingShape(ui: UI, addr: TreeAddr, s: Service, fetch: Fetcher, decode: JsonDecoder)
    requires Tree(s, addr, fetch, decode).err.None?
    ensures var es := Tree(s, addr, fetch, decode).tree.entries;
            var items := FetchFileList(ui, addr, s, fetch, decode).ui.fileList;
            && |items| == |es| + (if IsRoot(addr.path) then 0 else 1)
            && (forall i :: 0 <= i < |es| ==> items[i].text == es[i].name)
            && (!IsRoot(addr.path) ==> items[|es|] == Item("..", TreeHandler))
  {
    var es := Tree(s, addr, fetch, decode).tree.entries;
    var w := WithParent(addr.path, es);
    assert forall i :: 0 <= i < |es| ==> w[i] == es[i] by {
      if !IsRoot(addr.path) {
        assert w[..|es|] == es;
      }
    }
  }

  /**
   The path a click on `name` leads to: an empty current path counts as `.`, the
   name is joined on and the result cleaned, and leading slashes are removed.
   */
  function ChildPath(path: string, name: string): (r: string)
    ensures !Rooted(r)
    ensures r != "" ==> Clean(r) == r
  {
    var j := Join(if path == "" then "." else path, name);
    var r := TrimLeft(j, Separator);
    assert r != "" ==> Clean(r) == r by {
      if r != "" && r != j {
        TrimmedCleanIsClean(j);
      }
    }
    r
  }

  /** Removing the leading slash of a cleaned rooted path leaves a clean relative path. */
  lemma TrimmedCleanIsClean(j: string)
    requires j != "" && Clean(j) == j
    requires TrimLeft(j, Separator) != "" && TrimLeft(j, Separator) != j
    ensures Clean(TrimLeft(j, Separator)) == TrimLeft(j, Separator)
  {
    var st := Elements(j);
    assert Rooted(j);
    assert j == [Separator] + JoinWith(st, Separator);
    var r := TrimLeft(j, Separator);
    assert j[1..] == JoinWith(st, Separator);
    assert r == TrimLeft(JoinWith(st, Separator), Separator);
    assert JoinWith(st, Separator) != [];
    JoinFirst(st);
    assert r == JoinWith(st, Separator);
    CleanRender(false, st);
  }

  /** The address a click on `name` leads to. */
  function ClickTarget(addr: TreeAddr, name: string): (r: TreeAddr)
    ensures r.repo == addr.repo && r.branch == addr.branch
    ensures r.path == ChildPath(addr.path, name)
  {
    addr.(path := ChildPath(addr.path, name))
  }

  /**
   `onFileListClick` and `onFileListClickTree`: a file item opens its content, a
   directory item opens its listing, any other item does nothing.
   */
  function Click(ui: UI, item: Item): (n: Navigation)
    ensures item.handler == NoHandler <==> n == Stay
    ensures item.handler == ContentHandler ==> n == OpenContent(ClickTarget(ui.addr, item.text))
    ensures item.handler == TreeHandler ==> n == OpenTree(ClickTarget(ui.addr, item.text))
  {
    match item.handler
    case NoHandler => Stay
    case ContentHandler => OpenContent(ClickTarget(ui.addr, item.text))
    case TreeHandler => OpenTree(ClickTarget(ui.addr, item.text))
  }

  /** An empty current path behaves as `.`. */
  lemma ChildPathOfEmpty(name: string)
    ensures ChildPath("", name) == ChildPath(".", name)
  {
  }

  /** A path made of element names, relative and without `.` or `..`. */
  predicate Descendant(st: seq<string>)
  {
    forall i :: 0 <= i < |st| ==> IsName(st[i])
  }

  /** Clicking a name below a directory extends the directory's path by that name. */
  lemma ChildPathOfName(st: seq<string>, name: string)
    requires Descendant(st) && IsName(name)
    ensures ChildPath(Render(false, st), name) == Render(false, st + [name])
  {
    assert Normal(false, st);
    JoinName(st, name);
    var q := st + [name];
    JoinFirst(q);
  }

  /**
   Clicking `..` removes the last element of the path: `a/b` becomes `a` and `a`
   becomes `.`, the root.
   */
  lemma ChildPathOfParent(st: seq<string>)
    requires |st| > 0 && Descendant(st)
    ensures ChildPath(Render(false, st), "..") == Render(false, st[..|st| - 1])
    ensures |st| == 1 ==> IsRoot(ChildPath(Render(false, st), ".."))
  {
    assert Render(false, st) != "";
    JoinParent(st);
    var p := st[..|st| - 1];
    if |p| > 0 {
      JoinFirst(p);
    }
  }

  /** Going into a directory and then to `..` returns to where one started. */
  lemma IntoAndBackOut(st: seq<string>, name: string)
    requires Descendant(st) && IsName(name)
    ensures ChildPath(ChildPath(Render(false, st), name), "..") == Render(false, st)
  {
    var q := st + [name];
    assert Descendant(q) by {
      forall i | 0 <= i < |q|
        ensures IsName(q[i])
      {
        if i < |st| { assert q[i] == st[i]; }
      }
    }
    ChildPathOfName(st, name);
    ChildPathOfParent(q);
    assert q[..|q| - 1] == st;
  }

  /**
   After a successful listing below the root, clicking the `..` item opens the
   listing of the parent directory.
   */
  lemma ParentItemOpensParent(ui: UI, addr: TreeAddr, st: seq<string>, s: Service, fetch: Fetcher, decode: JsonDecoder)
    requires |st| > 0 && Descendant(st) && addr.path == Render(false, st)
    requires Tree(s, addr, fetch, decode).err.None?
    ensures var ui' := FetchFileList(ui, addr, s, fetch, decode).ui;
            && |ui'.fileList| > 0
            && Click(ui', ui'.fileList[|ui'.fileList| - 1]) == OpenTree(addr.(path := Render(false, st[..|st| - 1])))
  {
    JoinFirst(st);
    assert !IsRoot(addr.path) by {
      if |st| == 1 {
        assert addr.path == st[0];
      } else {
        assert |addr.path| >= |st[0]| + 1;
      }
    }
    ListingShape(ui, addr, s, fetch, decode);
    ChildPathOfParent(st);
  }

  /**
   The display lines of a blob's text: one per `"\n"`-separated piece, in order, an
   empty piece shown as a single space and every other piece unchanged.
   */
  function DisplayLines(c: string): (lines: seq<string>)
    ensures |lines| == Count(c, '\n') + 1
    ensures forall i :: 0 <= i < |lines| ==>
      lines[i] == (if Split(c, '\n')[i] == "" then " " else Split(c, '\n')[i])
  {
    var pieces := Split(c, '\n');
    seq(|pieces|, i requires 0 <= i < |pieces| => if pieces[i] == "" then " " else pieces[i])
  }

  /** No display line is empty, and the lines joined back give the text with blanks filled. */
  lemma DisplayLinesNonEmpty(c: string)
    ensures forall i :: 0 <= i < |DisplayLines(c)| ==> DisplayLines(c)[i] != ""
    ensures c == "" ==> DisplayLines(c) == [" "]
  {
  }

  /**
   `fetchContent`: an error replaces the content pane's text with the error; otherwise
   the pane shows the decoded text's display lines.
   */
  function FetchContent(addr: TreeAddr, s: Service, fetch: Fetcher): (v: ContentView)
    ensures BlobContentString(s, addr, fetch).err.Some? ==>
      v == ContentError(BlobContentString(s, addr, fetch).err.value)
    ensures BlobContentString(s, addr, fetch).err.None? ==>
      v == ContentLines(DisplayLines(BlobContentString(s, addr, fetch).text))
  {
    var out := BlobContentString(s, addr, fetch);
    match out.err
    case Some(e) => ContentError(e)
    case None => ContentLines(DisplayLines(out.text))
  }
}
